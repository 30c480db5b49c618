/**
 * `df.groupby(key)[target].mean()` and the top-five table built from it with
 * `sort_values(ascending=False).head()`.
 */
module GroupMeans {
  import opened Wrappers
  import opened Frame

  /** One entry of a group table: the group key and its mean (`None` when every target cell of the group is NaN). */
  datatype Group = Group(key: string, mean: Option<real>)

  /** Python's string order: lexicographic by code point. */
  predicate Less(a: string, b: string)
  {
    if a == [] then b != []
    else if b == [] then false
    else a[0] < b[0] || (a[0] == b[0] && Less(a[1..], b[1..]))
  }

  lemma {:induction false} LessIrreflexive(a: string)
    ensures !Less(a, a)
  {
    if a != [] {
      LessIrreflexive(a[1..]);
    }
  }

  lemma {:induction false} LessTransitive(a: string, b: string, c: string)
    requires Less(a, b) && Less(b, c)
    ensures Less(a, c)
  {
    if a != [] && b != [] && c != [] && a[0] == b[0] == c[0] {
      LessTransitive(a[1..], b[1..], c[1..]);
    }
  }

  /** Two different strings are ordered one way or the other. */
  lemma {:induction false} LessTotal(a: string, b: string)
    requires a != b
    ensures Less(a, b) || Less(b, a)
  {
    if a != [] && b != [] && a[0] == b[0] {
      assert a == [a[0]] + a[1..] && b == [b[0]] + b[1..];
      LessTotal(a[1..], b[1..]);
    }
  }

  predicate StrictlySorted(keys: seq<string>)
  {
    forall i, j :: 0 <= i < j < |keys| ==> Less(keys[i], keys[j])
  }

  /** Adds `k` to a sorted key list unless it is already there. */
  function InsertKey(k: string, keys: seq<string>): (r: seq<string>)
    requires StrictlySorted(keys)
    ensures StrictlySorted(r)
    ensures forall x :: x in r <==> x in keys || x == k
  {
    if keys == [] then [k]
    else if k == keys[0] then keys
    else if Less(k, keys[0]) then
      assert forall j :: 0 < j < |keys| ==> Less(k, keys[j]) by {
        forall j | 0 < j < |keys| ensures Less(k, keys[j]) {
          LessTransitive(k, keys[0], keys[j]);
        }
      }
      [k] + keys
    else
      LessTotal(k, keys[0]);
      var rest := InsertKey(k, keys[1..]);
      assert forall x :: x in rest ==> Less(keys[0], x);
      [keys[0]] + rest
  }

  /** Row `i` has the string `k` in column `key`. */
  ghost predicate HasKey(rows: seq<Row>, key: string, k: string)
  {
    exists i :: 0 <= i < |rows| && Cell(rows[i], key) == Text(k)
  }

  /** The distinct non-missing keys of a column, sorted (`groupby` sorts by default and drops NaN keys). */
  function GroupKeys(rows: seq<Row>, key: string): (keys: seq<string>)
    ensures StrictlySorted(keys)
    ensures forall k :: k in keys <==> HasKey(rows, key, k)
  {
    if rows == [] then []
    else
      var rest := GroupKeys(rows[1..], key);
      assert forall k :: HasKey(rows, key, k) <==> HasKey(rows[1..], key, k) || Cell(rows[0], key) == Text(k) by {
        forall k ensures HasKey(rows, key, k) <==> HasKey(rows[1..], key, k) || Cell(rows[0], key) == Text(k) {
          if HasKey(rows, key, k) && Cell(rows[0], key) != Text(k) {
            var i :| 0 <= i < |rows| && Cell(rows[i], key) == Text(k);
            assert Cell(rows[1..][i - 1], key) == Text(k);
          }
          if HasKey(rows[1..], key, k) {
            var i :| 0 <= i < |rows[1..]| && Cell(rows[1..][i], key) == Text(k);
            assert Cell(rows[i + 1], key) == Text(k);
          }
        }
      }
      match Cell(rows[0], key)
      case Text(s) => InsertKey(s, rest)
      case _ => rest
  }

  /** Row `r` belongs to group `k` and has a number in the target column. */
  predicate Counts(r: Row, key: string, target: string, k: string)
  {
    Cell(r, key) == Text(k) && Cell(r, target).Num?
  }

  /** The number of non-missing target values in group `k`. */
  function GroupCount(rows: seq<Row>, key: string, target: string, k: string): nat
  {
    if rows == [] then 0
    else (if Counts(rows[0], key, target, k) then 1 else 0) + GroupCount(rows[1..], key, target, k)
  }

  /** The sum of the non-missing target values in group `k`. */
  function GroupSum(rows: seq<Row>, key: string, target: string, k: string): real
  {
    if rows == [] then 0.0
    else (if Counts(rows[0], key, target, k) then Cell(rows[0], target).x else 0.0) + GroupSum(rows[1..], key, target, k)
  }

  /** pandas' `mean`: NaN cells are skipped, and a group with no numbers has a NaN mean. */
  function GroupMean(rows: seq<Row>, key: string, target: string, k: string): Option<real>
  {
    var n := GroupCount(rows, key, target, k);
    if n == 0 then None else Some(GroupSum(rows, key, target, k) / n as real)
  }

  function KeysOf(groups: seq<Group>): (keys: seq<string>)
    ensures |keys| == |groups|
    ensures forall i :: 0 <= i < |groups| ==> keys[i] == groups[i].key
  {
    seq(|groups|, i requires 0 <= i < |groups| => groups[i].key)
  }

  /**
   * `df.groupby(key)[target].mean()`: exactly one entry per distinct non-missing
   * key, in increasing key order, each holding its group's mean.
   */
  function MeanBy(rows: seq<Row>, key: string, target: string): (groups: seq<Group>)
    requires TextColumn(rows, key) && NumericColumn(rows, target)
    ensures StrictlySorted(KeysOf(groups))
    ensures forall k :: k in KeysOf(groups) <==> HasKey(rows, key, k)
    ensures forall i :: 0 <= i < |groups| ==> groups[i].mean == GroupMean(rows, key, target, groups[i].key)
  {
    var keys := GroupKeys(rows, key);
    var groups := seq(|keys|, i requires 0 <= i < |keys| => Group(keys[i], GroupMean(rows, key, target, keys[i])));
    assert KeysOf(groups) == keys;
    groups
  }

  /** Line 82: average training hours per gender. */
  function TrainingByGender(rows: seq<Row>): seq<Group>
    requires TextColumn(rows, "Gender") && NumericColumn(rows, "Training_Hours_per_Week")
  {
    MeanBy(rows, "Gender", "Training_Hours_per_Week")
  }

  lemma {:induction false} GroupSumBounds(rows: seq<Row>, key: string, target: string, k: string, lo: real, hi: real)
    requires forall i :: 0 <= i < |rows| && Counts(rows[i], key, target, k) ==> lo <= Cell(rows[i], target).x <= hi
    ensures GroupCount(rows, key, target, k) as real * lo <= GroupSum(rows, key, target, k) <= GroupCount(rows, key, target, k) as real * hi
  {
    if rows != [] {
      assert forall i :: 1 <= i < |rows| ==> rows[1..][i - 1] == rows[i];
      GroupSumBounds(rows[1..], key, target, k, lo, hi);
    }
  }

  /** A group's mean lies between any bounds of its values. */
  lemma MeanBounds(rows: seq<Row>, key: string, target: string, k: string, lo: real, hi: real)
    requires forall i :: 0 <= i < |rows| && Counts(rows[i], key, target, k) ==> lo <= Cell(rows[i], target).x <= hi
    requires GroupMean(rows, key, target, k).Some?
    ensures lo <= GroupMean(rows, key, target, k).value <= hi
  {
    GroupSumBounds(rows, key, target, k, lo, hi);
    DivideBounds(GroupSum(rows, key, target, k), GroupCount(rows, key, target, k) as real, lo, hi);
  }

  lemma DivideBounds(s: real, n: real, lo: real, hi: real)
    requires n > 0.0 && n * lo <= s <= n * hi
    ensures lo <= s / n <= hi
  {
    assert s / n - lo == (s - n * lo) / n;
    assert hi - s / n == (n * hi - s) / n;
  }

  /** The number of counted rows over a list of keys. */
  function CountOver(rows: seq<Row>, key: string, target: string, keys: seq<string>): nat
  {
    if keys == [] then 0 else GroupCount(rows, key, target, keys[0]) + CountOver(rows, key, target, keys[1..])
  }

  /** The rows with a non-missing key and a non-missing target. */
  function KeyedCount(rows: seq<Row>, key: string, target: string): nat
  {
    if rows == [] then 0
    else (if Cell(rows[0], key).Text? && Cell(rows[0], target).Num? then 1 else 0) + KeyedCount(rows[1..], key, target)
  }

  lemma {:induction false} CountOverStep(rows: seq<Row>, key: string, target: string, keys: seq<string>)
    requires rows != []
    requires Distinct(keys)
    ensures CountOver(rows, key, target, keys) ==
      CountOver(rows[1..], key, target, keys)
      + (if Cell(rows[0], key).Text? && Cell(rows[0], key).s in keys && Cell(rows[0], target).Num? then 1 else 0)
  {
    if keys != [] {
      CountOverStep(rows, key, target, keys[1..]);
      if Cell(rows[0], key) == Text(keys[0]) {
        assert keys[0] !in keys[1..];
      }
    }
  }

  lemma {:induction false} KeyedCountIsCountOver(rows: seq<Row>, key: string, target: string, keys: seq<string>)
    requires Distinct(keys)
    requires forall k :: HasKey(rows, key, k) ==> k in keys
    ensures CountOver(rows, key, target, keys) == KeyedCount(rows, key, target)
  {
    if rows == [] {
      CountOverEmpty(key, target, keys);
    } else {
      assert forall k :: HasKey(rows[1..], key, k) ==> k in keys by {
        forall k | HasKey(rows[1..], key, k) ensures k in keys {
          var i :| 0 <= i < |rows[1..]| && Cell(rows[1..][i], key) == Text(k);
          assert Cell(rows[i + 1], key) == Text(k);
        }
      }
      if Cell(rows[0], key).Text? {
        assert HasKey(rows, key, Cell(rows[0], key).s);
      }
      CountOverStep(rows, key, target, keys);
      KeyedCountIsCountOver(rows[1..], key, target, keys);
    }
  }

  lemma {:induction false} CountOverEmpty(key: string, target: string, keys: seq<string>)
    ensures CountOver([], key, target, keys) == 0
  {
    if keys != [] {
      CountOverEmpty(key, target, keys[1..]);
    }
  }

  /**
   * The groups partition the rows: every row with a non-missing key and a
   * non-missing target is counted in exactly one group.
   */
  lemma GroupsPartitionRows(rows: seq<Row>, key: string, target: string)
    ensures CountOver(rows, key, target, GroupKeys(rows, key)) == KeyedCount(rows, key, target)
  {
    var keys := GroupKeys(rows, key);
    forall i, j | 0 <= i < j < |keys| ensures keys[i] != keys[j] {
      if keys[i] == keys[j] {
        LessIrreflexive(keys[i]);
      }
    }
    KeyedCountIsCountOver(rows, key, target, keys);
  }

  /** The order `sort_values(ascending=False)` puts groups in: larger means first, NaN means last. */
  predicate AtLeast(a: Group, b: Group)
  {
    b.mean.None? || (a.mean.Some? && a.mean.value >= b.mean.value)
  }

  predicate SortedDesc(s: seq<Group>)
  {
    forall i, j :: 0 <= i < j < |s| ==> AtLeast(s[i], s[j])
  }

  /** Putting in front an element that ranks at least as high as every other keeps the order. */
  lemma SortedDescCons(g: Group, s: seq<Group>)
    requires SortedDesc(s)
    requires forall x :: x in s ==> AtLeast(g, x)
    ensures SortedDesc([g] + s)
  {
    forall i, j | 0 <= i < j < |[g] + s| ensures AtLeast(([g] + s)[i], ([g] + s)[j]) {
      if i == 0 {
        assert ([g] + s)[j] == s[j - 1];
      } else {
        assert ([g] + s)[i] == s[i - 1] && ([g] + s)[j] == s[j - 1];
      }
    }
  }

  function InsertDesc(g: Group, s: seq<Group>): (r: seq<Group>)
    requires SortedDesc(s)
    ensures SortedDesc(r)
    ensures multiset(r) == multiset(s) + multiset{g}
  {
    if s == [] then [g]
    else if AtLeast(g, s[0]) then
      assert forall x :: x in s ==> AtLeast(g, x) by {
        forall x | x in s ensures AtLeast(g, x) {
          var j :| 0 <= j < |s| && s[j] == x;
          assert j == 0 || AtLeast(s[0], s[j]);
        }
      }
      SortedDescCons(g, s);
      [g] + s
    else
      var rest := InsertDesc(g, s[1..]);
      assert s == [s[0]] + s[1..];
      assert forall x :: x in rest ==> AtLeast(s[0], x) by {
        forall x | x in rest ensures AtLeast(s[0], x) {
          assert x in multiset(rest);
          if x != g {
            assert x in multiset(s[1..]);
            var j :| 0 <= j < |s[1..]| && s[1..][j] == x;
            assert s[j + 1] == x;
          }
        }
      }
      SortedDescCons(s[0], rest);
      [s[0]] + rest
  }

  /**
   * `sort_values(ascending=False)`: a permutation, ordered by non-increasing
   * mean with NaN last. Ties come out in one of the orders pandas may produce.
   */
  function SortDesc(s: seq<Group>): (r: seq<Group>)
    ensures SortedDesc(r)
    ensures multiset(r) == multiset(s)
  {
    if s == [] then []
    else
      assert s == [s[0]] + s[1..];
      InsertDesc(s[0], SortDesc(s[1..]))
  }

  /** `.sort_values(ascending=False).head(n)`. */
  function TopN(groups: seq<Group>, n: nat): seq<Group>
  {
    var sorted := SortDesc(groups);
    if |sorted| <= n then sorted else sorted[..n]
  }

  /**
   * The top-n table has min(n, number of groups) entries drawn from the groups,
   * in non-increasing order of mean, and every kept mean ranks at least as high
   * as every dropped one.
   */
  lemma TopNSpec(groups: seq<Group>, n: nat)
    ensures |TopN(groups, n)| == if |groups| < n then |groups| else n
    ensures SortedDesc(TopN(groups, n))
    ensures multiset(TopN(groups, n)) <= multiset(groups)
    ensures forall a, b :: a in TopN(groups, n) && b in multiset(groups) - multiset(TopN(groups, n)) ==> AtLeast(a, b)
  {
    var s := SortDesc(groups);
    assert |s| == |multiset(s)| == |groups|;
    var m := if |s| <= n then |s| else n;
    var r := TopN(groups, n);
    assert r == s[..m];
    PrefixSplit(s, m);
  }

  /** A prefix of a sorted table ranks at least as high as the rest, which is what it leaves out. */
  lemma PrefixSplit(s: seq<Group>, m: nat)
    requires SortedDesc(s) && m <= |s|
    ensures SortedDesc(s[..m])
    ensures multiset(s) - multiset(s[..m]) == multiset(s[m..])
    ensures forall a, b :: a in s[..m] && b in multiset(s) - multiset(s[..m]) ==> AtLeast(a, b)
  {
    assert s == s[..m] + s[m..];
    assert multiset(s) == multiset(s[..m]) + multiset(s[m..]);
    forall a, b | a in s[..m] && b in multiset(s[m..]) ensures AtLeast(a, b) {
      var i :| 0 <= i < m && s[..m][i] == a;
      var j :| 0 <= j < |s| - m && s[m..][j] == b;
      assert s[i] == a && s[m + j] == b;
    }
  }

  /** Line 86: the five sports with the highest mean performance. */
  function TopSports(rows: seq<Row>): seq<Group>
    requires TextColumn(rows, "Sport") && NumericColumn(rows, "Performance_Score")
  {
    TopN(MeanBy(rows, "Sport", "Performance_Score"), 5)
  }

  /** The top-sports table has one entry per sport for at most five sports, in non-increasing mean order. */
  lemma TopSportsSpec(rows: seq<Row>)
    requires TextColumn(rows, "Sport") && NumericColumn(rows, "Performance_Score")
    ensures |TopSports(rows)| == if |GroupKeys(rows, "Sport")| < 5 then |GroupKeys(rows, "Sport")| else 5
    ensures SortedDesc(TopSports(rows))
    ensures forall g :: g in TopSports(rows) ==> HasKey(rows, "Sport", g.key) && g.mean == GroupMean(rows, "Sport", "Performance_Score", g.key)
  {
    var groups := MeanBy(rows, "Sport", "Performance_Score");
    TopNSpec(groups, 5);
    assert |groups| == |KeysOf(groups)|;
    forall g | g in TopSports(rows)
      ensures HasKey(rows, "Sport", g.key) && g.mean == GroupMean(rows, "Sport", "Performance_Score", g.key)
    {
      assert g in multiset(groups);
      var i :| 0 <= i < |groups| && groups[i] == g;
      assert KeysOf(groups)[i] == g.key;
    }
  }

  /**
   * Three athletes, genders M, M, F, training 10, 12 and 8 hours: the table is
   * keyed in sorted order, so F (mean 8) comes before M (mean 11).
   */
  lemma GenderExample()
    ensures TrainingByGender([
      map["Gender" := Text("M"), "Training_Hours_per_Week" := Num(10.0)],
      map["Gender" := Text("M"), "Training_Hours_per_Week" := Num(12.0)],
      map["Gender" := Text("F"), "Training_Hours_per_Week" := Num(8.0)]])
      == [Group("F", Some(8.0)), Group("M", Some(11.0))]
  {
    var g, t := "Gender", "Training_Hours_per_Week";
    var r0 := map[g := Text("M"), t := Num(10.0)];
    var r1 := map[g := Text("M"), t := Num(12.0)];
    var r2 := map[g := Text("F"), t := Num(8.0)];
    var rows := [r0, r1, r2];
    assert rows[1..] == [r1, r2] && [r1, r2][1..] == [r2] && [r2][1..] == [];
    assert Cell(r0, g) == Text("M") && Cell(r1, g) == Text("M") && Cell(r2, g) == Text("F");
    assert Cell(r0, t) == Num(10.0) && Cell(r1, t) == Num(12.0) && Cell(r2, t) == Num(8.0);
    assert "M" != "F" && Less("F", "M") && !Less("M", "F");
    assert GroupKeys([r2], g) == ["F"];
    assert InsertKey("M", ["F"]) == ["F", "M"];
    assert GroupKeys([r1, r2], g) == ["F", "M"];
    assert InsertKey("M", ["F", "M"]) == ["F", "M"];
    assert GroupKeys(rows, g) == ["F", "M"];
    assert GroupCount([r2], g, t, "F") == 1 && GroupSum([r2], g, t, "F") == 8.0;
    assert GroupCount([r1, r2], g, t, "F") == 1 && GroupSum([r1, r2], g, t, "F") == 8.0;
    assert GroupCount(rows, g, t, "F") == 1 && GroupSum(rows, g, t, "F") == 8.0;
    assert !Counts(r2, g, t, "M");
    assert Counts(r1, g, t, "M") && Counts(r0, g, t, "M");
    assert GroupCount([r2], g, t, "M") == 0 && GroupSum([r2], g, t, "M") == 0.0;
    assert GroupCount([r1, r2], g, t, "M") == 1 && GroupSum([r1, r2], g, t, "M") == 12.0;
    assert GroupCount(rows, g, t, "M") == 2 && GroupSum(rows, g, t, "M") == 22.0;
  }
}

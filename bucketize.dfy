/**
 * `pd.cut` with pandas' defaults (right-closed bins, `include_lowest=False`,
 * ordered labels) and the two bucket columns the script adds to the frame.
 */
module Bucketize {
  import opened Wrappers
  import opened Frame

  /** Bin edges and one label per bin. */
  datatype Bins = Bins(edges: seq<real>, labels: seq<string>)

  /** The exceptions `df[target] = pd.cut(df[source], ...)` can raise, in the order pandas checks them. */
  datatype CutError =
    | NoSuchColumn(name: string)   // KeyError on df[source]
    | BinsNotMonotonic             // "bins must increase monotonically."
    | DuplicateEdges               // "Bin edges must be unique"
    | NotNumeric                   // TypeError comparing a string cell with the edges
    | DuplicateLabels              // "labels must be unique if ordered=True"
    | LabelCountMismatch           // "Bin labels must be one fewer than the number of bin edges"

  predicate NonDecreasing(e: seq<real>)
  {
    forall i, j :: 0 <= i <= j < |e| ==> e[i] <= e[j]
  }

  /** `searchsorted(edges, x, side='left')`: the number of edges strictly below `x`. */
  function CountBelow(edges: seq<real>, x: real): (n: nat)
    ensures n <= |edges|
  {
    if edges == [] then 0 else (if edges[0] < x then 1 else 0) + CountBelow(edges[1..], x)
  }

  /**
   * The 0-based bin of `x`, or `None` when pandas marks it NaN: no edge is below
   * `x` (it is at or under the first edge) or every edge is (it is past the last).
   */
  function BinIndex(edges: seq<real>, x: real): (r: Option<nat>)
    ensures r.Some? ==> r.value + 1 < |edges|
  {
    var ids := CountBelow(edges, x);
    if ids == 0 || ids == |edges| then None else Some(ids - 1)
  }

  /** On sorted edges, the edges below `x` are exactly a prefix. */
  lemma {:induction false} CountBelowSplit(edges: seq<real>, x: real)
    requires NonDecreasing(edges)
    ensures forall i :: 0 <= i < CountBelow(edges, x) ==> edges[i] < x
    ensures forall i :: CountBelow(edges, x) <= i < |edges| ==> x <= edges[i]
  {
    if edges != [] {
      CountBelowSplit(edges[1..], x);
      if edges[0] >= x {
        CountBelowNone(edges[1..], x);
      }
    }
  }

  lemma {:induction false} CountBelowNone(edges: seq<real>, x: real)
    requires forall i :: 0 <= i < |edges| ==> x <= edges[i]
    ensures CountBelow(edges, x) == 0
  {
    if edges != [] {
      CountBelowNone(edges[1..], x);
    }
  }

  /** More edges are below a larger value. */
  lemma {:induction false} CountBelowMonotone(edges: seq<real>, a: real, b: real)
    requires a <= b
    ensures CountBelow(edges, a) <= CountBelow(edges, b)
  {
    if edges != [] {
      CountBelowMonotone(edges[1..], a, b);
    }
  }

  /** On sorted edges, bin `k` is the right-closed interval `(edges[k], edges[k+1]]`. */
  lemma BinIndexSpec(edges: seq<real>, x: real, k: nat)
    requires NonDecreasing(edges)
    ensures BinIndex(edges, x) == Some(k) <==> k + 1 < |edges| && edges[k] < x <= edges[k + 1]
  {
    CountBelowSplit(edges, x);
  }

  /** On sorted edges, a value is unassigned exactly when it is outside `(edges[0], edges[last]]`. */
  lemma BinIndexNone(edges: seq<real>, x: real)
    requires NonDecreasing(edges)
    ensures BinIndex(edges, x) == None <==> |edges| < 2 || x <= edges[0] || edges[|edges| - 1] < x
  {
    CountBelowSplit(edges, x);
  }

  /** Whatever the edges, a larger value never falls in an earlier bin. */
  lemma BinIndexMonotone(edges: seq<real>, a: real, b: real)
    requires a <= b
    requires BinIndex(edges, a).Some? && BinIndex(edges, b).Some?
    ensures BinIndex(edges, a).value <= BinIndex(edges, b).value
  {
    CountBelowMonotone(edges, a, b);
  }

  /** The configuration checks pandas makes before labelling any value, in its order. */
  function CheckCut(rows: seq<Row>, source: string, bins: Bins): (r: Option<CutError>)
    ensures r.None? ==> NonDecreasing(bins.edges) && Distinct(bins.labels) && |bins.labels| + 1 == |bins.edges|
  {
    if !NonDecreasing(bins.edges) then Some(BinsNotMonotonic)
    else if !Distinct(bins.edges) && |bins.edges| != 2 then Some(DuplicateEdges)
    else if !NumericColumn(rows, source) then Some(NotNumeric)
    else if !Distinct(bins.labels) then Some(DuplicateLabels)
    else if |bins.labels| + 1 != |bins.edges| then Some(LabelCountMismatch)
    else None
  }

  /** The label of one cell: the label of its bin, or missing for a missing or out-of-range value. */
  function CutCell(bins: Bins, v: Value): Value
    requires |bins.labels| + 1 == |bins.edges|
  {
    match v
    case Num(x) => (match BinIndex(bins.edges, x) case Some(k) => Text(bins.labels[k]) case None => Missing)
    case _ => Missing
  }

  /** `pd.cut(df[source], bins=edges, labels=labels)`: one label or missing per row. */
  function Cut(rows: seq<Row>, source: string, bins: Bins): (r: Result<seq<Value>, CutError>)
    ensures r.Ok? <==> CheckCut(rows, source, bins).None?
    ensures r.Ok? ==> |r.value| == |rows|
  {
    match CheckCut(rows, source, bins)
    case Some(e) => Err(e)
    case None => Ok(seq(|rows|, i requires 0 <= i < |rows| => CutCell(bins, Cell(rows[i], source))))
  }

  /**
   * A successful cut labels row `i` with label `k` exactly when its value lies in
   * `(edges[k], edges[k+1]]`, and leaves it missing exactly when it is missing
   * or in no bin.
   */
  lemma CutSpec(rows: seq<Row>, source: string, bins: Bins, i: nat, k: nat)
    requires Cut(rows, source, bins).Ok? && i < |rows| && k < |bins.labels|
    ensures Cut(rows, source, bins).value[i] == Text(bins.labels[k]) <==>
      Cell(rows[i], source).Num? && bins.edges[k] < Cell(rows[i], source).x <= bins.edges[k + 1]
    ensures Cut(rows, source, bins).value[i] == Missing <==>
      Cell(rows[i], source).Missing? || BinIndex(bins.edges, Cell(rows[i], source).x).None?
  {
    var v := Cell(rows[i], source);
    assert !v.Text?;
    if v.Num? {
      BinIndexSpec(bins.edges, v.x, k);
      match BinIndex(bins.edges, v.x)
      case Some(j) =>
        assert bins.labels[j] == bins.labels[k] ==> j == k;
      case None =>
    }
  }

  /** `df[target] = pd.cut(df[source], ...)`: on success the frame gains (or overwrites) the label column. */
  method CutInto(df: DataFrame, source: string, target: string, bins: Bins) returns (err: Option<CutError>)
    requires df.Valid()
    modifies df
    ensures df.Valid()
    ensures source !in old(df.columns) ==> err == Some(NoSuchColumn(source)) && unchanged(df)
    ensures source in old(df.columns) ==> match Cut(old(df.rows), source, bins)
      case Err(e) => err == Some(e) && unchanged(df)
      case Ok(labels) =>
        && err == None
        && df.columns == (if target in old(df.columns) then old(df.columns) else old(df.columns) + [target])
        && df.rows == WithColumn(old(df.rows), target, labels)
  {
    if source !in df.columns {
      return Some(NoSuchColumn(source));
    }
    var r := Cut(df.rows, source, bins);
    match r
    case Err(e) =>
      err := Some(e);
    case Ok(labels) =>
      df.AssignColumn(target, labels);
      err := None;
  }

  /** Injury risk levels: `bins = [0, 33, 66, 100]`. */
  const RiskBins := Bins([0.0, 33.0, 66.0, 100.0], ["Low Risk", "Moderate Risk", "High Risk"])

  /** Sleep buckets: `bins = [0, 5, 7, 9, 12]`. */
  const SleepBins := Bins([0.0, 5.0, 7.0, 9.0, 12.0], ["<5", "5-7", "7-9", "9+"])

  /** The script's two configurations pass every check pandas makes on its bins and labels. */
  lemma ConfigurationsAccepted(rows: seq<Row>, source: string)
    requires NumericColumn(rows, source)
    ensures CheckCut(rows, source, RiskBins) == None
    ensures CheckCut(rows, source, SleepBins) == None
  {
  }

  function RiskLevel(v: Value): Value
  {
    CutCell(RiskBins, v)
  }

  function SleepBucket(v: Value): Value
  {
    CutCell(SleepBins, v)
  }

  /** Low iff 0 < s <= 33, Moderate iff 33 < s <= 66, High iff 66 < s <= 100; otherwise unassigned. */
  lemma RiskLevelSpec(v: Value)
    ensures RiskLevel(v) == Text("Low Risk") <==> v.Num? && 0.0 < v.x <= 33.0
    ensures RiskLevel(v) == Text("Moderate Risk") <==> v.Num? && 33.0 < v.x <= 66.0
    ensures RiskLevel(v) == Text("High Risk") <==> v.Num? && 66.0 < v.x <= 100.0
    ensures RiskLevel(v) == Missing <==> !v.Num? || v.x <= 0.0 || 100.0 < v.x
  {
    if v.Num? {
      var e := RiskBins.edges;
      BinIndexSpec(e, v.x, 0);
      BinIndexSpec(e, v.x, 1);
      BinIndexSpec(e, v.x, 2);
      BinIndexNone(e, v.x);
      assert "Low Risk" != "Moderate Risk" && "Low Risk" != "High Risk" && "Moderate Risk" != "High Risk";
    }
  }

  /** Each sleep bucket is its right-closed interval; values outside `(0, 12]` are unassigned. */
  lemma SleepBucketSpec(v: Value)
    ensures SleepBucket(v) == Text("<5") <==> v.Num? && 0.0 < v.x <= 5.0
    ensures SleepBucket(v) == Text("5-7") <==> v.Num? && 5.0 < v.x <= 7.0
    ensures SleepBucket(v) == Text("7-9") <==> v.Num? && 7.0 < v.x <= 9.0
    ensures SleepBucket(v) == Text("9+") <==> v.Num? && 9.0 < v.x <= 12.0
    ensures SleepBucket(v) == Missing <==> !v.Num? || v.x <= 0.0 || 12.0 < v.x
  {
    if v.Num? {
      var e := SleepBins.edges;
      BinIndexSpec(e, v.x, 0);
      BinIndexSpec(e, v.x, 1);
      BinIndexSpec(e, v.x, 2);
      BinIndexSpec(e, v.x, 3);
      BinIndexNone(e, v.x);
      assert "<5"[0] != "5-7"[0] && "<5"[0] != "7-9"[0] && "<5"[0] != "9+"[0];
      assert "5-7"[0] != "7-9"[0] && "5-7"[0] != "9+"[0] && "7-9"[0] != "9+"[0];
    }
  }

  /** Longer sleep never lands in an earlier bucket. */
  lemma SleepBucketMonotone(a: real, b: real)
    requires a <= b
    requires BinIndex(SleepBins.edges, a).Some? && BinIndex(SleepBins.edges, b).Some?
    ensures BinIndex(SleepBins.edges, a).value <= BinIndex(SleepBins.edges, b).value
  {
    BinIndexMonotone(SleepBins.edges, a, b);
  }

  /** With `include_lowest=False` a value of exactly 0 gets no risk level and no sleep bucket. */
  lemma ZeroIsUnassigned()
    ensures RiskLevel(Num(0.0)) == Missing
    ensures SleepBucket(Num(0.0)) == Missing
  {
    RiskLevelSpec(Num(0.0));
    SleepBucketSpec(Num(0.0));
  }

  /** Line 134: `df['Injury_Risk_Level'] = pd.cut(df['Injury_Risk_Score'], bins=bins, labels=labels)`. */
  method AddInjuryRiskLevel(df: DataFrame) returns (err: Option<CutError>)
    requires df.Valid()
    modifies df
    ensures df.Valid()
    ensures err == None <==> "Injury_Risk_Score" in old(df.columns) && NumericColumn(old(df.rows), "Injury_Risk_Score")
    ensures "Injury_Risk_Score" !in old(df.columns) ==> err == Some(NoSuchColumn("Injury_Risk_Score"))
    ensures "Injury_Risk_Score" in old(df.columns) && !NumericColumn(old(df.rows), "Injury_Risk_Score") ==> err == Some(NotNumeric)
    ensures err == None ==>
      && df.columns == (if "Injury_Risk_Level" in old(df.columns) then old(df.columns) else old(df.columns) + ["Injury_Risk_Level"])
      && |df.rows| == |old(df.rows)|
      && forall i :: 0 <= i < |df.rows| ==>
           df.rows[i] == old(df.rows)[i]["Injury_Risk_Level" := RiskLevel(Cell(old(df.rows)[i], "Injury_Risk_Score"))]
    ensures err != None ==> unchanged(df)
  {
    if "Injury_Risk_Score" in df.columns && NumericColumn(df.rows, "Injury_Risk_Score") {
      ConfigurationsAccepted(df.rows, "Injury_Risk_Score");
    }
    err := CutInto(df, "Injury_Risk_Score", "Injury_Risk_Level", RiskBins);
  }

  /** Line 165: `df['Sleep_Bucket'] = pd.cut(df['Sleep_Hours'], bins=[0, 5, 7, 9, 12], labels=[...])`. */
  method AddSleepBucket(df: DataFrame) returns (err: Option<CutError>)
    requires df.Valid()
    modifies df
    ensures df.Valid()
    ensures err == None <==> "Sleep_Hours" in old(df.columns) && NumericColumn(old(df.rows), "Sleep_Hours")
    ensures "Sleep_Hours" !in old(df.columns) ==> err == Some(NoSuchColumn("Sleep_Hours"))
    ensures "Sleep_Hours" in old(df.columns) && !NumericColumn(old(df.rows), "Sleep_Hours") ==> err == Some(NotNumeric)
    ensures err == None ==>
      && df.columns == (if "Sleep_Bucket" in old(df.columns) then old(df.columns) else old(df.columns) + ["Sleep_Bucket"])
      && |df.rows| == |old(df.rows)|
      && forall i :: 0 <= i < |df.rows| ==>
           df.rows[i] == old(df.rows)[i]["Sleep_Bucket" := SleepBucket(Cell(old(df.rows)[i], "Sleep_Hours"))]
    ensures err != None ==> unchanged(df)
  {
    if "Sleep_Hours" in df.columns && NumericColumn(df.rows, "Sleep_Hours") {
      ConfigurationsAccepted(df.rows, "Sleep_Hours");
    }
    err := CutInto(df, "Sleep_Hours", "Sleep_Bucket", SleepBins);
  }
}

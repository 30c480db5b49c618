/**
 * The actionable-insight rules: five fixed threshold tests on entries of the
 * correlation matrix, checked in a fixed order, each emitting one fixed message.
 */
module Insights {
  import opened Wrappers

  /** A (row label, column label) position of the correlation matrix. */
  type Pair = (string, string)

  /** The correlation matrix as `corr.loc` sees it; `None` is a NaN entry. */
  type CorrMatrix = map<Pair, Option<real>>

  /** Positive findings are printed with a check mark, warnings with a warning sign. */
  datatype Severity = Positive | Warning

  /** The five findings the script can print, one per rule. */
  datatype Insight = SleepHelps | TrainingHelps | StressHurts | LowHrvRisk | HighRestingHrRisk

  function SeverityOf(i: Insight): Severity
  {
    if i == SleepHelps || i == TrainingHelps then Positive else Warning
  }

  /** The text printed for each finding, after its mark. */
  function Message(i: Insight): string
  {
    match i
    case SleepHelps => "Athletes with more sleep hours tend to have better performance. Encourage 7–9 hours of sleep."
    case TrainingHelps => "More training hours are generally associated with better performance. Monitor for overtraining."
    case StressHurts => "High perceived stress correlates with lower performance. Recommend stress reduction strategies."
    case LowHrvRisk => "Lower HRV is associated with higher injury risk. Use HRV as an early warning metric."
    case HighRestingHrRisk => "Higher resting heart rate may indicate higher injury risk. Monitor recovery readiness."
  }

  /** Whether a rule fires above its threshold (`>`) or below it (`<`). */
  datatype Comparison = Above | Below

  datatype Rule = Rule(row: string, col: string, cmp: Comparison, threshold: real, insight: Insight)

  /**
   * What the insight block produces: the insights printed, in order, and the
   * matrix position whose lookup raised `KeyError`, if one did.
   */
  datatype Report = Report(insights: seq<Insight>, missingEntry: Option<Pair>)

  function Key(rule: Rule): Pair
  {
    (rule.row, rule.col)
  }

  /** The mark printed in front of an insight. */
  function Marker(s: Severity): string
  {
    match s
    case Positive => "✅"
    case Warning => "⚠️"
  }

  /** The line printed for an insight. */
  function Line(i: Insight): string
  {
    Marker(SeverityOf(i)) + " " + Message(i)
  }

  /** The comparison of a rule against an entry; a NaN entry compares false both ways. */
  predicate Fires(rule: Rule, entry: Option<real>)
  {
    match entry
    case None => false
    case Some(v) => if rule.cmp == Above then v > rule.threshold else v < rule.threshold
  }

  /** The insight of one of the rules fires on `corr`. */
  ghost predicate EmittedBy(rules: seq<Rule>, corr: CorrMatrix, x: Insight)
  {
    exists i :: 0 <= i < |rules| && Key(rules[i]) in corr && Fires(rules[i], corr[Key(rules[i])]) && rules[i].insight == x
  }

  /**
   * Runs the rules in order, each unconditionally. A position absent from the
   * matrix raises `KeyError`, which ends the block after the insights already printed.
   */
  function Evaluate(rules: seq<Rule>, corr: CorrMatrix): (r: Report)
    ensures |r.insights| <= |rules|
    ensures r.missingEntry.None? <==> forall i :: 0 <= i < |rules| ==> Key(rules[i]) in corr
    ensures r.missingEntry.Some? ==> r.missingEntry.value !in corr
    ensures forall x :: x in r.insights ==> EmittedBy(rules, corr, x)
  {
    if rules == [] then Report([], None)
    else if Key(rules[0]) !in corr then Report([], Some(Key(rules[0])))
    else
      var rest := Evaluate(rules[1..], corr);
      assert forall x :: EmittedBy(rules[1..], corr, x) ==> EmittedBy(rules, corr, x) by {
        forall x | EmittedBy(rules[1..], corr, x) ensures EmittedBy(rules, corr, x) {
          var i :| 0 <= i < |rules[1..]| && Key(rules[1..][i]) in corr && Fires(rules[1..][i], corr[Key(rules[1..][i])]) && rules[1..][i].insight == x;
          assert rules[i + 1] == rules[1..][i];
        }
      }
      Report((if Fires(rules[0], corr[Key(rules[0])]) then [rules[0].insight] else []) + rest.insights, rest.missingEntry)
  }

  /**
   * Every rule is evaluated: a rule that fires, with no absent position at or
   * before it, has its insight printed.
   */
  lemma {:induction false} EvaluateComplete(rules: seq<Rule>, corr: CorrMatrix, i: nat)
    requires i < |rules|
    requires forall j :: 0 <= j <= i ==> Key(rules[j]) in corr
    requires Fires(rules[i], corr[Key(rules[i])])
    ensures rules[i].insight in Evaluate(rules, corr).insights
  {
    if i > 0 {
      assert forall j :: 0 <= j <= i - 1 ==> Key(rules[1..][j]) in corr by {
        forall j | 0 <= j <= i - 1 ensures Key(rules[1..][j]) in corr {
          assert rules[1..][j] == rules[j + 1];
        }
      }
      assert rules[1..][i - 1] == rules[i];
      EvaluateComplete(rules[1..], corr, i - 1);
    }
  }

  const SleepPair: Pair := ("Sleep_Hours", "Performance_Score")
  const TrainingPair: Pair := ("Training_Hours_per_Week", "Performance_Score")
  const StressPair: Pair := ("Perceived_Stress_Score", "Performance_Score")
  const HrvPair: Pair := ("HRV", "Injury_Risk_Score")
  const RestingHrPair: Pair := ("Resting_Heart_Rate", "Injury_Risk_Score")

  const SleepRule := Rule(SleepPair.0, SleepPair.1, Above, 0.3, SleepHelps)
  const TrainingRule := Rule(TrainingPair.0, TrainingPair.1, Above, 0.3, TrainingHelps)
  const StressRule := Rule(StressPair.0, StressPair.1, Below, -0.3, StressHurts)
  const HrvRule := Rule(HrvPair.0, HrvPair.1, Below, -0.3, LowHrvRisk)
  const RestingHrRule := Rule(RestingHrPair.0, RestingHrPair.1, Above, 0.3, HighRestingHrRisk)

  /** The five rules of the script, in the order it checks them. */
  const Rules: seq<Rule> := [SleepRule, TrainingRule, StressRule, HrvRule, RestingHrRule]

  /** The insight block of the script run on a computed matrix. */
  function ActionableInsights(corr: CorrMatrix): Report
  {
    Evaluate(Rules, corr)
  }

  /** An entry that is defined and strictly above `t`. */
  predicate DefinedAbove(e: Option<real>, t: real)
  {
    e.Some? && e.value > t
  }

  /** An entry that is defined and strictly below `t`. */
  predicate DefinedBelow(e: Option<real>, t: real)
  {
    e.Some? && e.value < t
  }

  function EmitIf(c: bool, i: Insight): seq<Insight>
  {
    if c then [i] else []
  }

  predicate AllPresent(corr: CorrMatrix)
  {
    SleepPair in corr && TrainingPair in corr && StressPair in corr && HrvPair in corr && RestingHrPair in corr
  }

  /**
   * On a matrix holding the five positions, the output is the five messages in
   * rule order, each kept exactly when its entry is defined and strictly beyond
   * its threshold: above 0.3 for sleep, training and resting heart rate, below
   * -0.3 for stress and HRV.
   */
  lemma ActionableInsightsSpec(corr: CorrMatrix)
    requires AllPresent(corr)
    ensures ActionableInsights(corr).missingEntry == None
    ensures ActionableInsights(corr).insights ==
        EmitIf(DefinedAbove(corr[SleepPair], 0.3), SleepHelps)
      + (EmitIf(DefinedAbove(corr[TrainingPair], 0.3), TrainingHelps)
      + (EmitIf(DefinedBelow(corr[StressPair], -0.3), StressHurts)
      + (EmitIf(DefinedBelow(corr[HrvPair], -0.3), LowHrvRisk)
      + EmitIf(DefinedAbove(corr[RestingHrPair], 0.3), HighRestingHrRisk))))
  {
    var e0 := EmitIf(DefinedAbove(corr[SleepPair], 0.3), SleepHelps);
    var e1 := EmitIf(DefinedAbove(corr[TrainingPair], 0.3), TrainingHelps);
    var e2 := EmitIf(DefinedBelow(corr[StressPair], -0.3), StressHurts);
    var e3 := EmitIf(DefinedBelow(corr[HrvPair], -0.3), LowHrvRisk);
    var e4 := EmitIf(DefinedAbove(corr[RestingHrPair], 0.3), HighRestingHrRisk);
    var r4 := EvaluateStep(RestingHrRule, [], corr);
    assert r4.insights == e4;
    var r3 := EvaluateStep(HrvRule, [RestingHrRule], corr);
    assert r3.insights == e3 + e4;
    var r2 := EvaluateStep(StressRule, [HrvRule, RestingHrRule], corr);
    assert r2.insights == e2 + (e3 + e4);
    var r1 := EvaluateStep(TrainingRule, [StressRule, HrvRule, RestingHrRule], corr);
    assert r1.insights == e1 + (e2 + (e3 + e4));
    var r0 := EvaluateStep(SleepRule, [TrainingRule, StressRule, HrvRule, RestingHrRule], corr);
    assert r0.insights == e0 + (e1 + (e2 + (e3 + e4)));
    assert [SleepRule] + [TrainingRule, StressRule, HrvRule, RestingHrRule] == Rules;
    assert r0 == ActionableInsights(corr);
  }

  /** One step of the evaluation: the first rule's insight, if it fires, before the rest's. */
  lemma EvaluateStep(rule: Rule, rest: seq<Rule>, corr: CorrMatrix) returns (r: Report)
    requires Key(rule) in corr
    ensures r == Evaluate([rule] + rest, corr)
    ensures r.insights == EmitIf(Fires(rule, corr[Key(rule)]), rule.insight) + Evaluate(rest, corr).insights
    ensures r.missingEntry == Evaluate(rest, corr).missingEntry
  {
    assert ([rule] + rest)[1..] == rest;
    r := Evaluate([rule] + rest, corr);
  }

  /**
   * Rule order: when every position of the rules `a` is present, running `a`
   * then `b` prints `a`'s insights before `b`'s, and any KeyError is `b`'s.
   */
  lemma {:induction false} EvaluateAppend(a: seq<Rule>, b: seq<Rule>, corr: CorrMatrix)
    requires forall i :: 0 <= i < |a| ==> Key(a[i]) in corr
    ensures Evaluate(a + b, corr) == Report(Evaluate(a, corr).insights + Evaluate(b, corr).insights, Evaluate(b, corr).missingEntry)
  {
    if a == [] {
      assert a + b == b;
    } else {
      assert (a + b)[0] == a[0];
      assert (a + b)[1..] == a[1..] + b;
      EvaluateAppend(a[1..], b, corr);
    }
  }

  /** Each message is printed exactly when its rule's entry is defined and beyond its threshold. */
  lemma InsightPresentIff(corr: CorrMatrix)
    requires AllPresent(corr)
    ensures SleepHelps in ActionableInsights(corr).insights <==> DefinedAbove(corr[SleepPair], 0.3)
    ensures TrainingHelps in ActionableInsights(corr).insights <==> DefinedAbove(corr[TrainingPair], 0.3)
    ensures StressHurts in ActionableInsights(corr).insights <==> DefinedBelow(corr[StressPair], -0.3)
    ensures LowHrvRisk in ActionableInsights(corr).insights <==> DefinedBelow(corr[HrvPair], -0.3)
    ensures HighRestingHrRisk in ActionableInsights(corr).insights <==> DefinedAbove(corr[RestingHrPair], 0.3)
  {
    ActionableInsightsSpec(corr);
    var out := ActionableInsights(corr).insights;
    var e0 := EmitIf(DefinedAbove(corr[SleepPair], 0.3), SleepHelps);
    var e1 := EmitIf(DefinedAbove(corr[TrainingPair], 0.3), TrainingHelps);
    var e2 := EmitIf(DefinedBelow(corr[StressPair], -0.3), StressHurts);
    var e3 := EmitIf(DefinedBelow(corr[HrvPair], -0.3), LowHrvRisk);
    var e4 := EmitIf(DefinedAbove(corr[RestingHrPair], 0.3), HighRestingHrRisk);
    assert out == e0 + (e1 + (e2 + (e3 + e4)));
    assert forall x :: x in out <==> x in e0 || x in e1 || x in e2 || x in e3 || x in e4;
  }

  /** When every entry the rules look at is NaN, nothing is printed, whether or not a lookup fails. */
  lemma {:induction false} AllUndefinedNoInsights(rules: seq<Rule>, corr: CorrMatrix)
    requires forall i :: 0 <= i < |rules| && Key(rules[i]) in corr ==> corr[Key(rules[i])] == None
    ensures Evaluate(rules, corr).insights == []
  {
    if rules != [] && Key(rules[0]) in corr {
      AllUndefinedNoInsights(rules[1..], corr);
    }
  }

  /** The thresholds are strict: entries exactly at 0.3 and -0.3 fire no rule. */
  lemma ThresholdsAreStrict(corr: CorrMatrix)
    requires AllPresent(corr)
    requires corr[SleepPair] == Some(0.3) && corr[TrainingPair] == Some(0.3) && corr[RestingHrPair] == Some(0.3)
    requires corr[StressPair] == Some(-0.3) && corr[HrvPair] == Some(-0.3)
    ensures ActionableInsights(corr) == Report([], None)
  {
    ActionableInsightsSpec(corr);
  }

  /** A missing position stops the block: only the insights of the earlier rules are printed. */
  lemma {:induction false} MissingEntryStops(rules: seq<Rule>, corr: CorrMatrix, k: nat)
    requires k < |rules| && Key(rules[k]) !in corr
    requires forall i :: 0 <= i < k ==> Key(rules[i]) in corr
    ensures Evaluate(rules, corr) == Report(Evaluate(rules[..k], corr).insights, Some(Key(rules[k])))
  {
    if k > 0 {
      assert rules[1..][..k - 1] == rules[..k][1..];
      MissingEntryStops(rules[1..], corr, k - 1);
    }
  }
}

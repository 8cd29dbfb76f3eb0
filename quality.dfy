/**
 * The staging data-quality report: five categories of violation counts,
 * each passed or failed, summed into one score against a fixed denominator
 * and graded A to D. The thirteen counts come from SQL `COUNT(*)` queries
 * and are inputs here; the score is rounded to two decimals before it is
 * graded.
 */
module Quality {
  import opened Rounding

  /** The denominator the overall score is computed against. */
  const ScoreDenominator: int := 50000

  /** `calculate_score`: 100 when there is nothing to score against,
      otherwise the share of non-violations as a percentage, rounded to two
      decimals and floored at 0. */
  function CalculateScore(violations: int, total: int): (score: real)
    ensures score >= 0.0
    ensures total == 0 ==> score == 100.0
  {
    if total == 0 then 100.0
    else
      var rounded := RoundHundredths((1.0 - violations as real / total as real) * 100.0);
      if rounded > 0.0 then rounded else 0.0
  }

  /** With no violations the score is 100; it never exceeds 100 for a
      positive total, and with as many violations as records it is 0. */
  lemma ScoreBounds(violations: int, total: int)
    requires violations >= 0 && total > 0
    ensures CalculateScore(violations, total) <= 100.0
    ensures violations == 0 ==> CalculateScore(violations, total) == 100.0
    ensures violations >= total ==> CalculateScore(violations, total) == 0.0
  {
    var q := violations as real / total as real;
    assert q >= 0.0;
    RoundMonotone((1.0 - q) * 100.0, 100.0);
    assert RoundHundredths(100.0) == 100.0;
    if violations >= total {
      assert violations as real >= total as real;
      assert q >= 1.0;
      RoundMonotone((1.0 - q) * 100.0, 0.0);
      assert RoundHundredths(0.0) == 0.0;
    }
  }

  /** More violations never raise the score. */
  lemma ScoreMonotone(v1: int, v2: int, total: int)
    requires 0 <= v1 <= v2 && total > 0
    ensures CalculateScore(v2, total) <= CalculateScore(v1, total)
  {
    assert v1 as real / total as real <= v2 as real / total as real;
    RoundMonotone((1.0 - v2 as real / total as real) * 100.0, (1.0 - v1 as real / total as real) * 100.0);
  }

  /** Against the fixed denominator, the score reaches a whole number of
      hundredths n (at least 1) exactly when 5 * (10000 - n) + 2.5 violations
      are not exceeded, that is, each violation costs 0.002 points before
      rounding. */
  lemma ScoreAtLeast(violations: int, n: int)
    requires violations >= 0 && n >= 1
    ensures CalculateScore(violations, ScoreDenominator) >= n as real / 100.0
      <==> 2 * violations <= 10 * (10000 - n) + 5
  {
    var x := (1.0 - violations as real / ScoreDenominator as real) * 100.0;
    assert x * 100.0 + 0.5 == 10000.5 - violations as real / 5.0;
    RoundAtLeast(x, n);
  }

  datatype Grade = A | B | C | D

  /** The grade ladder on the overall score. */
  function GradeOf(score: real): (g: Grade)
    ensures g == A <==> score >= 95.0
    ensures g == B <==> 85.0 <= score < 95.0
    ensures g == C <==> 70.0 <= score < 85.0
    ensures g == D <==> score < 70.0
  {
    if score >= 95.0 then A
    else if score >= 85.0 then B
    else if score >= 70.0 then C
    else D
  }

  /** A higher score never gets a worse grade. */
  lemma GradeMonotone(s1: real, s2: real)
    requires s1 <= s2
    ensures GradeRank(GradeOf(s1)) <= GradeRank(GradeOf(s2))
  {
  }

  function GradeRank(g: Grade): nat {
    match g
    case D => 0
    case C => 1
    case B => 2
    case A => 3
  }

  /** The thirteen counts the checks fetch. */
  datatype Counts = Counts(
    nullEmail: nat, missingItems: nat,                              // completeness
    dupCustomers: nat, dupEmails: nat,                              // uniqueness
    invalidPrice: nat, invalidDiscount: nat, invalidQuantity: nat,  // validity and range
    lineMismatch: nat, totalMismatch: nat, costAbovePrice: nat,     // consistency
    orphanTransactions: nat, orphanItemTransaction: nat, orphanItemProduct: nat) // referential integrity

  datatype Status = Passed | Failed

  datatype CheckResult = CheckResult(status: Status, violations: nat)

  datatype QualityReport = QualityReport(
    nullChecks: CheckResult,
    duplicateChecks: CheckResult,
    rangeChecks: CheckResult,
    dataConsistency: CheckResult,
    referentialIntegrity: CheckResult,
    totalViolations: nat,
    overallQualityScore: real,
    qualityGrade: Grade)

  /** One category: passed exactly when its summed count is 0. */
  function Check(violations: nat): (r: CheckResult)
    ensures r.violations == violations
    ensures r.status == Passed <==> violations == 0
  {
    CheckResult(if violations == 0 then Passed else Failed, violations)
  }

  /** `run_quality_checks` without the queries and the JSON file. */
  function RunQualityChecks(c: Counts): (r: QualityReport)
    ensures r.nullChecks.violations == c.nullEmail + c.missingItems
    ensures r.duplicateChecks.violations == c.dupCustomers + c.dupEmails
    ensures r.rangeChecks.violations == c.invalidPrice + c.invalidDiscount + c.invalidQuantity
    ensures r.dataConsistency.violations == c.lineMismatch + c.totalMismatch + c.costAbovePrice
    ensures r.referentialIntegrity.violations
      == c.orphanTransactions + c.orphanItemTransaction + c.orphanItemProduct
    ensures r.totalViolations == r.nullChecks.violations + r.duplicateChecks.violations
      + r.rangeChecks.violations + r.dataConsistency.violations + r.referentialIntegrity.violations
    ensures r.overallQualityScore == CalculateScore(r.totalViolations, ScoreDenominator)
    ensures r.qualityGrade == GradeOf(r.overallQualityScore)
  {
    var completeness := Check(c.nullEmail + c.missingItems);
    var uniqueness := Check(c.dupCustomers + c.dupEmails);
    var range := Check(c.invalidPrice + c.invalidDiscount + c.invalidQuantity);
    var consistency := Check(c.lineMismatch + c.totalMismatch + c.costAbovePrice);
    var referential := Check(c.orphanTransactions + c.orphanItemTransaction + c.orphanItemProduct);
    var total := completeness.violations + uniqueness.violations + range.violations
      + consistency.violations + referential.violations;
    var score := CalculateScore(total, ScoreDenominator);
    QualityReport(completeness, uniqueness, range, consistency, referential, total, score, GradeOf(score))
  }

  ghost predicate AllPassed(r: QualityReport) {
    r.nullChecks.status == Passed && r.duplicateChecks.status == Passed
    && r.rangeChecks.status == Passed && r.dataConsistency.status == Passed
    && r.referentialIntegrity.status == Passed
  }

  /** Every check passes exactly when no violation was counted, and then the
      score is 100 with grade A; any violation at all makes some check fail. */
  lemma AllPassedIff(c: Counts)
    ensures var r := RunQualityChecks(c);
      (AllPassed(r) <==> r.totalViolations == 0)
      && (AllPassed(r) ==> r.overallQualityScore == 100.0 && r.qualityGrade == A)
  {
    ScoreBounds(0, ScoreDenominator);
  }

  /** Each category passes exactly when every count summed into it is 0. */
  lemma CategoryStatus(c: Counts)
    ensures var r := RunQualityChecks(c);
      && (r.nullChecks.status == Passed <==> c.nullEmail == 0 && c.missingItems == 0)
      && (r.duplicateChecks.status == Passed <==> c.dupCustomers == 0 && c.dupEmails == 0)
      && (r.rangeChecks.status == Passed <==>
            c.invalidPrice == 0 && c.invalidDiscount == 0 && c.invalidQuantity == 0)
      && (r.dataConsistency.status == Passed <==>
            c.lineMismatch == 0 && c.totalMismatch == 0 && c.costAbovePrice == 0)
      && (r.referentialIntegrity.status == Passed <==>
            c.orphanTransactions == 0 && c.orphanItemTransaction == 0 && c.orphanItemProduct == 0)
  {
  }

  /** Grade A holds up to 2502 violations out of 50000 and is lost at 2503:
      2501 and 2502 give 94.998 and 94.996, which round to 95.00. */
  lemma GradeABoundary(c: Counts)
    ensures var r := RunQualityChecks(c);
      r.qualityGrade == A <==> r.totalViolations <= 2502
  {
    ScoreAtLeast(RunQualityChecks(c).totalViolations, 9500);
  }
}

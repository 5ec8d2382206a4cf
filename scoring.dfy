/**
 * Scoring an applicant against the active rules and the shortlisting
 * decision (app/models/shortlist_engine.py:11-129).
 */
module Scoring {
  import opened Text
  import opened Applicant
  import opened Tenure
  import opened RuleEvaluation

  /** The threshold used when `SHORTLIST_MIN_SCORE` is not set (config/settings.py:28). */
  const DefaultMinScore: int := 2

  // ---------------------------------------------------------------------------
  // Rules as read from the rule table

  /** The `fields` of a rule row; a column Airtable leaves out is `None`. */
  datatype RuleFields = RuleFields(
    criterion: Option<string>,
    rule: Option<string>,
    points: Option<int>,
    description: Option<string>)

  /** A row of the rule table; `id` is `None` when the row has no `id` key, `fields` when it has no `fields` key. */
  datatype StoreRecord = StoreRecord(id: Option<string>, fields: Option<RuleFields>)

  datatype Rule = Rule(id: string, criterion: string, rule: string, points: int, description: string)

  /** One row projected onto a rule, a missing column taking `""` or `0`. */
  function ProjectRule(id: string, fields: Option<RuleFields>): (r: Rule)
    ensures r.id == id
    ensures fields.None? ==> r == Rule(id, "", "", 0, "")
    ensures fields.Some? ==>
      && r.criterion == fields.value.criterion.GetOr("")
      && r.rule == fields.value.rule.GetOr("")
      && r.points == fields.value.points.GetOr(0)
      && r.description == fields.value.description.GetOr("")
  {
    var f := fields.GetOr(RuleFields(None, None, None, None));
    Rule(id, f.criterion.GetOr(""), f.rule.GetOr(""), f.points.GetOr(0), f.description.GetOr(""))
  }

  /**
   * `_get_active_rules` on the rows already filtered by `{Active} = TRUE()`:
   * `None` when listing fails. A row without `id` raises, which also gives no rules.
   */
  function ActiveRules(rows: Option<seq<StoreRecord>>): seq<Rule> {
    match rows
    case None => []
    case Some(rs) =>
      if forall k :: 0 <= k < |rs| ==> rs[k].id.Some? then
        seq(|rs|, k requires 0 <= k < |rs| => ProjectRule(rs[k].id.value, rs[k].fields))
      else []
  }

  method GetActiveRules(rows: Option<seq<StoreRecord>>) returns (rules: seq<Rule>)
    ensures rules == ActiveRules(rows)
    ensures rows.Some? && (forall k :: 0 <= k < |rows.value| ==> rows.value[k].id.Some?) ==>
      |rules| == |rows.value| && forall k :: 0 <= k < |rules| ==> rules[k].id == rows.value[k].id.value
    ensures rows.None? || (exists k :: 0 <= k < |rows.value| && rows.value[k].id.None?) ==> rules == []
  {
    if rows.None? {
      return [];
    }
    var records := rows.value;
    rules := [];
    for i := 0 to |records|
      invariant forall k :: 0 <= k < i ==> records[k].id.Some?
      invariant |rules| == i && forall k :: 0 <= k < i ==> rules[k] == ProjectRule(records[k].id.value, records[k].fields)
    {
      if records[i].id.None? {
        return [];
      }
      rules := rules + [ProjectRule(records[i].id.value, records[i].fields)];
    }
  }

  // ---------------------------------------------------------------------------
  // The score

  /** Whether rule `r` passes; `_calculate_score` lower-cases the criterion first. */
  predicate Passes(record: Record, r: Rule, now: YearMonth) {
    RuleHolds(record, Lower(r.criterion), r.rule, now)
  }

  /** The points of the passing rules. */
  function PassedPoints(record: Record, rules: seq<Rule>, now: YearMonth): int {
    if rules == [] then 0
    else
      var last := rules[|rules| - 1];
      PassedPoints(record, rules[..|rules| - 1], now) + (if Passes(record, last, now) then last.points else 0)
  }

  /** `sum(rule['points'] for rule in rules)`. */
  function TotalPoints(rules: seq<Rule>): int {
    if rules == [] then 0 else TotalPoints(rules[..|rules| - 1]) + rules[|rules| - 1].points
  }

  function MatchedLine(r: Rule): string {
    Lower(r.criterion) + " (" + r.rule + "): +" + IntToString(r.points) + " points"
  }

  function FailedLine(r: Rule): string {
    Lower(r.criterion) + " (" + r.rule + "): 0 points"
  }

  /** The lines of the passing rules, in rule order. */
  function MatchedLines(record: Record, rules: seq<Rule>, now: YearMonth): seq<string> {
    if rules == [] then []
    else
      var last := rules[|rules| - 1];
      MatchedLines(record, rules[..|rules| - 1], now) + (if Passes(record, last, now) then [MatchedLine(last)] else [])
  }

  /** The lines of the failing rules, in rule order. */
  function FailedLines(record: Record, rules: seq<Rule>, now: YearMonth): seq<string> {
    if rules == [] then []
    else
      var last := rules[|rules| - 1];
      FailedLines(record, rules[..|rules| - 1], now) + (if Passes(record, last, now) then [] else [FailedLine(last)])
  }

  const PassedHeader: string := "\U{2705} Passed criteria:"
  const FailedHeader: string := "\U{274C} Failed criteria:"

  function Bullets(lines: seq<string>): (r: seq<string>)
    ensures |r| == |lines| && forall k :: 0 <= k < |lines| ==> r[k] == "  \U{2022} " + lines[k]
  {
    seq(|lines|, k requires 0 <= k < |lines| => "  \U{2022} " + lines[k])
  }

  function TotalLine(score: int, possible: int): string {
    "\nTotal Score: " + IntToString(score) + "/" + IntToString(possible)
  }

  /** The parts of `score_reason`: each non-empty group under its header, then the total. */
  function ReasonParts(matched: seq<string>, failed: seq<string>, score: int, possible: int): seq<string> {
    (if matched != [] then [PassedHeader] + Bullets(matched) else [])
    + (if failed != [] then [FailedHeader] + Bullets(failed) else [])
    + [TotalLine(score, possible)]
  }

  /** The parts list built step by step, as `_calculate_score` does. */
  method BuildReasonParts(matched: seq<string>, failed: seq<string>, score: int, possible: int)
    returns (parts: seq<string>)
    ensures parts == ReasonParts(matched, failed, score, possible)
  {
    parts := [];
    if matched != [] {
      parts := parts + [PassedHeader] + Bullets(matched);
      assert parts == [PassedHeader] + Bullets(matched);
    }
    ghost var passedPart := parts;
    if failed != [] {
      parts := parts + [FailedHeader] + Bullets(failed);
      assert parts == passedPart + ([FailedHeader] + Bullets(failed));
    }
    parts := parts + [TotalLine(score, possible)];
  }

  /** One more rule adds its points and its line to the matching side or its line to the failing side. */
  lemma ScoreStep(record: Record, rules: seq<Rule>, i: nat, now: YearMonth)
    requires i < |rules|
    ensures PassedPoints(record, rules[..i + 1], now)
      == PassedPoints(record, rules[..i], now) + (if Passes(record, rules[i], now) then rules[i].points else 0)
    ensures MatchedLines(record, rules[..i + 1], now)
      == MatchedLines(record, rules[..i], now) + (if Passes(record, rules[i], now) then [MatchedLine(rules[i])] else [])
    ensures FailedLines(record, rules[..i + 1], now)
      == FailedLines(record, rules[..i], now) + (if Passes(record, rules[i], now) then [] else [FailedLine(rules[i])])
  {
    assert rules[..i + 1][..i] == rules[..i] && rules[..i + 1][i] == rules[i];
  }

  datatype ScoreResult = ScoreResult(totalScore: int, scoreReason: string, matchedCriteria: nat, failedCriteria: nat)

  /** `_calculate_score`. */
  method CalculateScore(record: Record, rules: seq<Rule>, now: YearMonth) returns (result: ScoreResult)
    ensures result.totalScore == PassedPoints(record, rules, now)
    ensures result.matchedCriteria == |MatchedLines(record, rules, now)|
    ensures result.failedCriteria == |FailedLines(record, rules, now)|
    ensures result.matchedCriteria + result.failedCriteria == |rules|
    ensures result.scoreReason == Join(ReasonParts(MatchedLines(record, rules, now), FailedLines(record, rules, now),
                                                   PassedPoints(record, rules, now), TotalPoints(rules)), "\n")
  {
    var totalScore := 0;
    var matchedCriteria: seq<string> := [];
    var failedCriteria: seq<string> := [];
    for i := 0 to |rules|
      invariant totalScore == PassedPoints(record, rules[..i], now)
      invariant matchedCriteria == MatchedLines(record, rules[..i], now)
      invariant failedCriteria == FailedLines(record, rules[..i], now)
    {
      var criterion := Lower(rules[i].criterion);
      var ruleText := rules[i].rule;
      var points := rules[i].points;
      var passed := EvaluateRule(record, criterion, ruleText, now);
      ScoreStep(record, rules, i, now);
      if passed {
        totalScore := totalScore + points;
        matchedCriteria := matchedCriteria + [MatchedLine(rules[i])];
      } else {
        failedCriteria := failedCriteria + [FailedLine(rules[i])];
      }
    }
    assert rules[..|rules|] == rules;
    LinesPartitionRules(record, rules, now);
    var scoreReasonParts := BuildReasonParts(matchedCriteria, failedCriteria, totalScore, TotalPoints(rules));
    result := ScoreResult(totalScore, Join(scoreReasonParts, "\n"), |matchedCriteria|, |failedCriteria|);
  }

  /** With non-negative points the score lies between 0 and the points on offer. */
  lemma {:induction false} ScoreBounds(record: Record, rules: seq<Rule>, now: YearMonth)
    requires forall k :: 0 <= k < |rules| ==> rules[k].points >= 0
    ensures 0 <= PassedPoints(record, rules, now) <= TotalPoints(rules)
  {
    if rules != [] {
      ScoreBounds(record, rules[..|rules| - 1], now);
    }
  }

  /** When every rule passes the score is the full total and no line is a failure. */
  lemma {:induction false} AllPassedFullScore(record: Record, rules: seq<Rule>, now: YearMonth)
    requires forall k :: 0 <= k < |rules| ==> Passes(record, rules[k], now)
    ensures PassedPoints(record, rules, now) == TotalPoints(rules)
    ensures FailedLines(record, rules, now) == []
    ensures |MatchedLines(record, rules, now)| == |rules|
  {
    if rules != [] {
      AllPassedFullScore(record, rules[..|rules| - 1], now);
    }
  }

  /** When no rule passes the score is 0 and there is no passed line. */
  lemma {:induction false} NonePassedZeroScore(record: Record, rules: seq<Rule>, now: YearMonth)
    requires forall k :: 0 <= k < |rules| ==> !Passes(record, rules[k], now)
    ensures PassedPoints(record, rules, now) == 0
    ensures MatchedLines(record, rules, now) == []
    ensures |FailedLines(record, rules, now)| == |rules|
  {
    if rules != [] {
      NonePassedZeroScore(record, rules[..|rules| - 1], now);
    }
  }

  /** Each rule is reported exactly once, as passed or as failed. */
  lemma {:induction false} LinesPartitionRules(record: Record, rules: seq<Rule>, now: YearMonth)
    ensures |MatchedLines(record, rules, now)| + |FailedLines(record, rules, now)| == |rules|
  {
    if rules != [] {
      LinesPartitionRules(record, rules[..|rules| - 1], now);
    }
  }

  /** The reason opens with the passed group when some rule passed, else with the failed group or the total. */
  lemma ReasonHeaders(matched: seq<string>, failed: seq<string>, score: int, possible: int)
    ensures var parts := ReasonParts(matched, failed, score, possible);
      && |parts| == (if matched != [] then 1 + |matched| else 0) + (if failed != [] then 1 + |failed| else 0) + 1
      && (parts[0] == PassedHeader <==> matched != [])
      && (matched == [] && failed != [] ==> parts[0] == FailedHeader)
      && parts[|parts| - 1] == TotalLine(score, possible)
  {
    assert PassedHeader != FailedHeader;
    var parts := ReasonParts(matched, failed, score, possible);
    if matched == [] && failed == [] {
      assert TotalLine(score, possible)[0] == '\n';
    }
  }

  /** `score_reason` always ends with the total line. */
  lemma ReasonEndsWithTotal(matched: seq<string>, failed: seq<string>, score: int, possible: int)
    ensures var reason := Join(ReasonParts(matched, failed, score, possible), "\n");
      var total := TotalLine(score, possible);
      |total| <= |reason| && reason[|reason| - |total|..] == total
  {
    var parts := ReasonParts(matched, failed, score, possible);
    ReasonHeaders(matched, failed, score, possible);
    JoinEndsWithLast(parts, "\n");
  }

  // ---------------------------------------------------------------------------
  // The decision

  datatype Evaluation =
    | NoActiveRules
    | Shortlisted(score: int, scoreReason: string, rulesEvaluated: nat)
    | NotShortlisted(score: int, scoreReason: string, minScoreRequired: int, rulesEvaluated: nat)

  /**
   * `evaluate_applicant` up to the call that stores the lead: no rules is an
   * error, otherwise the applicant is shortlisted exactly when the score reaches
   * `minScore`.
   */
  method EvaluateApplicant(rows: Option<seq<StoreRecord>>, record: Record, now: YearMonth, minScore: int)
    returns (e: Evaluation)
    ensures e.NoActiveRules? <==> ActiveRules(rows) == []
    ensures e.Shortlisted? <==> ActiveRules(rows) != [] && PassedPoints(record, ActiveRules(rows), now) >= minScore
    ensures !e.NoActiveRules? ==> e.score == PassedPoints(record, ActiveRules(rows), now) && e.rulesEvaluated == |ActiveRules(rows)|
    ensures e.NotShortlisted? ==> e.minScoreRequired == minScore && e.score < minScore
    ensures !e.NoActiveRules? ==>
      var rules := ActiveRules(rows);
      e.scoreReason == Join(ReasonParts(MatchedLines(record, rules, now), FailedLines(record, rules, now),
                                        PassedPoints(record, rules, now), TotalPoints(rules)), "\n")
  {
    var rules := GetActiveRules(rows);
    if rules == [] {
      return NoActiveRules;
    }
    var evaluation := CalculateScore(record, rules, now);
    if evaluation.totalScore >= minScore {
      e := Shortlisted(evaluation.totalScore, evaluation.scoreReason, |rules|);
    } else {
      e := NotShortlisted(evaluation.totalScore, evaluation.scoreReason, minScore, |rules|);
    }
  }

  /** A row whose `fields` carry no `Criterion` yields a rule that never passes. */
  lemma MissingCriterionNeverPasses(record: Record, id: string, fields: Option<RuleFields>, now: YearMonth)
    requires fields.None? || fields.value.criterion.None?
    ensures !Passes(record, ProjectRule(id, fields), now)
  {
    var r := ProjectRule(id, fields);
    assert Lower(r.criterion) == "";
    UnrecognisedCriterionFails(record, "", r.rule, now);
  }

  /** Rows without a `Criterion` column never shortlist anyone when the threshold is positive. */
  lemma NoCriteriaNotShortlisted(rows: seq<StoreRecord>, record: Record, now: YearMonth, minScore: int)
    requires minScore > 0
    requires forall k :: 0 <= k < |rows| ==> rows[k].fields.None? || rows[k].fields.value.criterion.None?
    ensures PassedPoints(record, ActiveRules(Some(rows)), now) < minScore
  {
    var rules := ActiveRules(Some(rows));
    forall k | 0 <= k < |rules|
      ensures !Passes(record, rules[k], now)
    {
      MissingCriterionNeverPasses(record, rows[k].id.value, rows[k].fields, now);
    }
    NonePassedZeroScore(record, rules, now);
  }
}

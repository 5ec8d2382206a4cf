/**
 * Evaluation of one shortlisting rule against a normalized applicant record
 * (app/models/shortlist_engine.py:131-285). The criterion picks the
 * evaluator; each evaluator reads the rule text with its own pattern.
 */
module RuleEvaluation {
  import opened Text
  import opened Applicant
  import opened Patterns
  import opened Tenure

  datatype Category = Experience | Compensation | Location | Technology | Availability | Generic

  /** The dispatch of `_evaluate_rule` on the lower-cased criterion: the first keyword found wins. */
  function Classify(criterion: string): (c: Category)
    ensures c == Experience <==> Contains(criterion, "experience")
    ensures c == Compensation <==>
      && !Contains(criterion, "experience")
      && (Contains(criterion, "compensation") || Contains(criterion, "rate") || Contains(criterion, "salary"))
    ensures c == Location <==>
      && !Contains(criterion, "experience")
      && !Contains(criterion, "compensation") && !Contains(criterion, "rate") && !Contains(criterion, "salary")
      && Contains(criterion, "location")
    ensures c == Technology <==>
      && !Contains(criterion, "experience")
      && !Contains(criterion, "compensation") && !Contains(criterion, "rate") && !Contains(criterion, "salary")
      && !Contains(criterion, "location")
      && (Contains(criterion, "technology") || Contains(criterion, "skill"))
    ensures c == Availability <==>
      && !Contains(criterion, "experience")
      && !Contains(criterion, "compensation") && !Contains(criterion, "rate") && !Contains(criterion, "salary")
      && !Contains(criterion, "location") && !Contains(criterion, "technology") && !Contains(criterion, "skill")
      && Contains(criterion, "availability")
    ensures c == Generic <==>
      !Contains(criterion, "experience") && !Contains(criterion, "compensation") && !Contains(criterion, "rate")
      && !Contains(criterion, "salary") && !Contains(criterion, "location") && !Contains(criterion, "technology")
      && !Contains(criterion, "skill") && !Contains(criterion, "availability")
  {
    if Contains(criterion, "experience") then Experience
    else if Contains(criterion, "compensation") || Contains(criterion, "rate") || Contains(criterion, "salary") then Compensation
    else if Contains(criterion, "location") then Location
    else if Contains(criterion, "technology") || Contains(criterion, "skill") then Technology
    else if Contains(criterion, "availability") then Availability
    else Generic
  }

  // ---------------------------------------------------------------------------
  // Experience: `>=N years`, optionally `in <technology>`

  /** `_evaluate_experience_rule`, as a function of the work history. */
  function ExperienceHolds(workExperience: seq<Entry>, ruleText: string, now: YearMonth): bool {
    var lower := Lower(ruleText);
    match SearchYears(lower)
    case None => false
    case Some(years) =>
      match SearchTechIn(lower)
      case Some(group) => TechMonths(workExperience, Strip(group), now) >= 12 * years
      case None => SumMonths(workExperience, now) >= 12 * years
  }

  method EvaluateExperienceRule(workExperience: seq<Entry>, ruleText: string, now: YearMonth)
    returns (passed: bool)
    ensures passed == ExperienceHolds(workExperience, ruleText, now)
  {
    var lower := Lower(ruleText);
    var yearsMatch := SearchYears(lower);
    if yearsMatch.None? {
      return false;
    }
    var requiredYears := yearsMatch.value;
    var totalMonths := TotalExperienceMonths(workExperience, now);
    var techMatch := SearchTechIn(lower);
    if techMatch.Some? {
      var requiredTech := Strip(techMatch.value);
      var techMonths := TechExperienceMonths(workExperience, requiredTech, now);
      passed := techMonths >= 12 * requiredYears;
    } else {
      passed := totalMonths >= 12 * requiredYears;
    }
  }

  /** Passing `>=N years in X` implies N years of experience overall. */
  lemma TechnologyClauseIsStricter(workExperience: seq<Entry>, ruleText: string, now: YearMonth)
    requires ExperienceHolds(workExperience, ruleText, now)
    ensures SearchYears(Lower(ruleText)).Some?
    ensures SumMonths(workExperience, now) >= 12 * SearchYears(Lower(ruleText)).value
  {
    var lower := Lower(ruleText);
    if SearchTechIn(lower).Some? {
      TechMonthsAtMostTotal(workExperience, Strip(SearchTechIn(lower).value), now);
    }
  }

  /** A rule `>=N years` with no `in` clause compares total months with 12 * N. */
  lemma ExperienceRuleTotal(workExperience: seq<Entry>, ruleText: string, now: YearMonth, p: string, n: nat, tail: string)
    requires Lower(ruleText) == p + ">=" + NatToString(n) + " year" + tail
    requires '>' !in p
    requires !Contains(Lower(ruleText), "in")
    ensures ExperienceHolds(workExperience, ruleText, now) <==> SumMonths(workExperience, now) >= 12 * n
  {
    YearsRuleFound(p, n, tail);
    NoInNoTechnology(Lower(ruleText));
  }

  // ---------------------------------------------------------------------------
  // Compensation: `<op>$N` against the preferred rate

  /**
   * The operator branches of `_evaluate_compensation_rule`, in their order;
   * the `≤`/`≥` tests are kept although the pattern never captures them.
   */
  function CompareRate(op: string, rate: int, threshold: int): bool {
    if Contains(op, "≤") || Contains(op, "<=") then rate <= threshold
    else if Contains(op, "≥") || Contains(op, ">=") then rate >= threshold
    else if Contains(op, "<") then rate < threshold
    else if Contains(op, ">") then rate > threshold
    else if Contains(op, "=") then rate == threshold
    else false
  }

  /** `_evaluate_compensation_rule`. */
  function CompensationHolds(salary: Salary, ruleText: string): bool {
    match SearchRate(Lower(ruleText))
    case None => false
    case Some(c) => CompareRate(c.op, salary.preferredRate, c.threshold)
  }

  /** The captured operator is made of `<`, `>`, `=` only, so the `≤`/`≥` tests never fire. */
  lemma CapturedOperatorIsAscii(op: string)
    requires forall k :: 0 <= k < |op| ==> IsOperatorChar(op[k])
    ensures !Contains(op, "≤") && !Contains(op, "≥")
  {
    MissingChar(op, "≤", 0);
    MissingChar(op, "≥", 0);
  }

  /** The five operators the rules are written with mean what they say. */
  lemma CompareRateOperators(rate: int, threshold: int)
    ensures CompareRate("<=", rate, threshold) == (rate <= threshold)
    ensures CompareRate(">=", rate, threshold) == (rate >= threshold)
    ensures CompareRate("<", rate, threshold) == (rate < threshold)
    ensures CompareRate(">", rate, threshold) == (rate > threshold)
    ensures CompareRate("=", rate, threshold) == (rate == threshold)
  {
    assert Contains("<=", "<=");
    CapturedOperatorIsAscii(">="); assert !Contains(">=", "<=") by { MissingChar(">=", "<=", 0); }
    assert Contains(">=", ">=");
    CapturedOperatorIsAscii("<"); assert !Contains("<", "<=");
    CapturedOperatorIsAscii(">"); assert !Contains(">", "<=") && !Contains(">", ">=") && !Contains(">", "<");
    CapturedOperatorIsAscii("="); assert !Contains("=", "<=") && !Contains("=", ">=") && !Contains("=", "<") && !Contains("=", ">");
  }

  /** A rule written `... <op>$N ...` or `... <op>N ...` compares the preferred rate with N as `op` says. */
  lemma CompensationRule(salary: Salary, ruleText: string, p: string, op: string, sign: string, n: nat, tail: string)
    requires Lower(ruleText) == p + op + sign + NatToString(n) + tail
    requires forall k :: 0 <= k < |p| ==> !IsOperatorChar(p[k])
    requires op == "<=" || op == ">=" || op == "<" || op == ">" || op == "="
    requires sign == "$" || sign == ""
    requires tail == [] || !IsDigit(tail[0])
    ensures op == "<=" ==> (CompensationHolds(salary, ruleText) <==> salary.preferredRate <= n)
    ensures op == ">=" ==> (CompensationHolds(salary, ruleText) <==> salary.preferredRate >= n)
    ensures op == "<" ==> (CompensationHolds(salary, ruleText) <==> salary.preferredRate < n)
    ensures op == ">" ==> (CompensationHolds(salary, ruleText) <==> salary.preferredRate > n)
    ensures op == "=" ==> (CompensationHolds(salary, ruleText) <==> salary.preferredRate == n)
  {
    assert forall k :: 0 <= k < |op| ==> IsOperatorChar(op[k]);
    RateRuleFound(p, op, sign, n, tail);
    CompareRateOperators(salary.preferredRate, n);
  }

  /** A rule written only with `≤`, `≥` or words has no usable operator and never passes. */
  lemma CompensationWithoutAsciiOperatorFails(salary: Salary, ruleText: string)
    requires forall c | c in ruleText :: !IsOperatorChar(c)
    ensures !CompensationHolds(salary, ruleText)
  {
    NoOperatorNoComparison(Lower(ruleText));
  }

  // ---------------------------------------------------------------------------
  // Location

  const UsNames: seq<string> := ["us", "usa", "united states", "america"]
  const EuCountries: seq<string> := ["uk", "germany", "france", "spain", "italy", "netherlands", "belgium", "poland"]

  /** `any(name in location for name in names)`. */
  predicate MentionsAny(location: string, names: seq<string>) {
    exists name | name in names :: Contains(location, name)
  }

  /** `_evaluate_location_rule`. */
  function LocationHolds(personal: Personal, ruleText: string): bool {
    var location := Lower(personal.location);
    var rule := Lower(ruleText);
    if Contains(rule, "us") && Contains(rule, "only") then MentionsAny(location, UsNames)
    else if Contains(rule, "remote") then Contains(location, "remote") || Contains(location, "anywhere")
    else if Contains(rule, "europe") then MentionsAny(location, EuCountries)
    else Contains(location, rule)
  }

  /** Under a "US only" rule, `usa` adds nothing: it already contains `us`. */
  lemma UsOnlyRule(personal: Personal, ruleText: string)
    requires Contains(Lower(ruleText), "us") && Contains(Lower(ruleText), "only")
    ensures LocationHolds(personal, ruleText) <==>
      var location := Lower(personal.location);
      Contains(location, "us") || Contains(location, "united states") || Contains(location, "america")
  {
    var location := Lower(personal.location);
    assert UsNames[0] == "us" && UsNames[1] == "usa" && UsNames[2] == "united states" && UsNames[3] == "america";
    if Contains(location, "usa") {
      assert Contains("usa", "us");
      ContainsTransitive(location, "usa", "us");
    }
  }

  /** An empty location rule accepts every applicant. */
  lemma EmptyLocationRulePasses(personal: Personal, ruleText: string)
    requires ruleText == ""
    ensures LocationHolds(personal, ruleText)
  {
    assert Lower(ruleText) == "";
    ContainsEmpty(Lower(personal.location));
  }

  // ---------------------------------------------------------------------------
  // Technology: the rule text minus keywords, looked up in every technology

  const TechKeywords: seq<string> := ["has", "experience", "with", "in"]

  /** The rule text after removing each keyword in turn and stripping after each removal. */
  function StripKeywords(s: string, keywords: seq<string>): string
    requires [] !in keywords
    decreases |keywords|
  {
    if keywords == [] then s
    else StripKeywords(Strip(RemoveAll(s, keywords[0])), keywords[1..])
  }

  /** A stripped text holding none of the keywords comes out of the removals as it went in. */
  lemma {:induction false} StripKeywordsUnchanged(s: string, keywords: seq<string>)
    requires [] !in keywords && forall w | w in keywords :: !Contains(s, w)
    requires Strip(s) == s
    ensures StripKeywords(s, keywords) == s
    decreases |keywords|
  {
    if keywords != [] {
      assert keywords[0] in keywords;
      assert RemoveAll(s, keywords[0]) == s;
      StripKeywordsUnchanged(s, keywords[1..]);
    }
  }

  /** No keyword is empty. */
  lemma KeywordsNonEmpty()
    ensures [] !in TechKeywords
  {
  }

  /** The technology a rule asks for. */
  function TechRequirement(ruleText: string): string {
    StripKeywords(Lower(ruleText), TechKeywords)
  }

  /** `_evaluate_technology_rule`: some technology of some job contains the requirement. */
  predicate TechnologyHolds(workExperience: seq<Entry>, ruleText: string) {
    exists e | e in workExperience :: ListsTechnology(e, TechRequirement(ruleText))
  }

  /** Every technology of the history, lower-cased, in order. */
  function AllTechnologies(workExperience: seq<Entry>): (r: seq<string>)
    ensures forall t | t in r :: exists e | e in workExperience :: exists u | u in e.technologies :: t == Lower(u)
    ensures forall e, u | e in workExperience && u in e.technologies :: Lower(u) in r
  {
    if workExperience == [] then []
    else
      var last := workExperience[|workExperience| - 1];
      AllTechnologies(workExperience[..|workExperience| - 1]) + LowerAll(last.technologies)
  }

  function LowerAll(ts: seq<string>): (r: seq<string>)
    ensures |r| == |ts| && forall k :: 0 <= k < |ts| ==> r[k] == Lower(ts[k])
  {
    seq(|ts|, k requires 0 <= k < |ts| => Lower(ts[k]))
  }

  /** Searching the flattened list is searching job by job. */
  lemma AnyTechnology(workExperience: seq<Entry>, needle: string)
    ensures (exists t | t in AllTechnologies(workExperience) :: Contains(t, needle))
        <==> exists e | e in workExperience :: ListsTechnology(e, needle)
  {
    var all := AllTechnologies(workExperience);
    if t :| t in all && Contains(t, needle) {
      var e, u :| e in workExperience && u in e.technologies && t == Lower(u);
      assert ListsTechnology(e, needle);
    }
    if e :| e in workExperience && ListsTechnology(e, needle) {
      var u :| u in e.technologies && Contains(Lower(u), needle);
      assert Lower(u) in all && Contains(Lower(u), needle);
      assert exists t | t in all :: Contains(t, needle);
    }
  }

  /** The first loop of `_evaluate_technology_rule`: every technology, lower-cased. */
  method CollectTechnologies(workExperience: seq<Entry>) returns (allTechnologies: seq<string>)
    ensures allTechnologies == AllTechnologies(workExperience)
  {
    allTechnologies := [];
    for i := 0 to |workExperience|
      invariant allTechnologies == AllTechnologies(workExperience[..i])
    {
      assert workExperience[..i + 1][..i] == workExperience[..i];
      allTechnologies := allTechnologies + LowerAll(workExperience[i].technologies);
    }
    assert workExperience[..|workExperience|] == workExperience;
  }

  /** The keyword loop of `_evaluate_technology_rule`: remove, then strip, keyword by keyword. */
  method RemoveKeywords(text: string, keywords: seq<string>) returns (r: string)
    requires [] !in keywords
    ensures r == StripKeywords(text, keywords)
  {
    r := text;
    for i := 0 to |keywords|
      invariant [] !in keywords[i..]
      invariant StripKeywords(r, keywords[i..]) == StripKeywords(text, keywords)
    {
      assert keywords[i..][1..] == keywords[i + 1..] && keywords[i..][0] == keywords[i];
      r := Strip(RemoveAll(r, keywords[i]));
    }
    assert keywords[|keywords|..] == [];
  }

  method EvaluateTechnologyRule(workExperience: seq<Entry>, ruleText: string) returns (passed: bool)
    ensures passed == TechnologyHolds(workExperience, ruleText)
  {
    var allTechnologies := CollectTechnologies(workExperience);
    KeywordsNonEmpty();
    var ruleLower := RemoveKeywords(Lower(ruleText), TechKeywords);
    passed := exists t | t in allTechnologies :: Contains(t, ruleLower);
    AnyTechnology(workExperience, ruleLower);
  }

  /** A history without technologies fails every technology rule. */
  lemma NoTechnologiesFails(workExperience: seq<Entry>, ruleText: string)
    requires forall e | e in workExperience :: e.technologies == []
    ensures !TechnologyHolds(workExperience, ruleText)
  {
  }

  /** A rule that is nothing but keywords and spaces asks for nothing: any listed technology passes it. */
  lemma EmptyRequirementPasses(workExperience: seq<Entry>, ruleText: string, e: Entry)
    requires TechRequirement(ruleText) == ""
    requires e in workExperience && e.technologies != []
    ensures TechnologyHolds(workExperience, ruleText)
  {
    EmptyTechnologyMatchesAnyListed(e);
    assert Lower("") == "";
  }

  // ---------------------------------------------------------------------------
  // Availability: `<op>N hours`, else full-time / part-time

  /** The operator branches on hours; `None` when none applies and the keywords decide. */
  function CompareHours(op: string, hours: int, required: int): Option<bool> {
    if Contains(op, "≥") || Contains(op, ">=") then Some(hours >= required)
    else if Contains(op, "≤") || Contains(op, "<=") then Some(hours <= required)
    else if Contains(op, ">") then Some(hours > required)
    else if Contains(op, "<") then Some(hours < required)
    else None
  }

  /** `_evaluate_availability_rule`. */
  function AvailabilityHolds(salary: Salary, ruleText: string): bool {
    var lower := Lower(ruleText);
    var hours := salary.availability;
    var byHours := match SearchHours(lower)
      case Some(c) => CompareHours(c.op, hours, c.threshold)
      case None => None;
    if byHours.Some? then byHours.value
    else if Contains(lower, "full-time") then hours >= 35
    else if Contains(lower, "part-time") then hours < 35
    else false
  }

  /** An `=N hours` rule decides nothing by itself: the keyword fallback applies. */
  lemma EqualsHoursFallsThrough(salary: Salary, ruleText: string, p: string, n: nat, tail: string)
    requires Lower(ruleText) == p + "=" + NatToString(n) + " hour" + tail
    requires forall k :: 0 <= k < |p| ==> !IsOperatorChar(p[k])
    ensures AvailabilityHolds(salary, ruleText) <==>
      (Contains(Lower(ruleText), "full-time") && salary.availability >= 35)
      || (!Contains(Lower(ruleText), "full-time") && Contains(Lower(ruleText), "part-time") && salary.availability < 35)
  {
    HoursRuleFound(p, "=", n, tail);
    CapturedOperatorIsAscii("=");
    assert !Contains("=", "<=") && !Contains("=", ">=") && !Contains("=", "<") && !Contains("=", ">");
  }

  /** The four operators the hours branches test mean what they say; `=` takes no branch. */
  lemma CompareHoursOperators(hours: int, required: int)
    ensures CompareHours(">=", hours, required) == Some(hours >= required)
    ensures CompareHours("<=", hours, required) == Some(hours <= required)
    ensures CompareHours(">", hours, required) == Some(hours > required)
    ensures CompareHours("<", hours, required) == Some(hours < required)
    ensures CompareHours("=", hours, required) == None
  {
    assert Contains(">=", ">=");
    CapturedOperatorIsAscii("<="); assert !Contains("<=", ">=") by { MissingChar("<=", ">=", 0); }
    assert Contains("<=", "<=");
    CapturedOperatorIsAscii(">"); assert !Contains(">", ">=") && !Contains(">", "<=");
    CapturedOperatorIsAscii("<"); assert !Contains("<", ">=") && !Contains("<", "<=") && !Contains("<", ">");
    CapturedOperatorIsAscii("="); assert !Contains("=", ">=") && !Contains("=", "<=") && !Contains("=", ">") && !Contains("=", "<");
  }

  /**
   * The hours branches test `>=` first and the rate branches test `<=` first, so an
   * operator run holding both reads as "at least" for hours and "at most" for rates.
   */
  lemma OperatorOrderDiffers(hours: int, required: int, rate: int, threshold: int)
    ensures CompareHours("<=>=", hours, required) == Some(hours >= required)
    ensures CompareRate("<=>=", rate, threshold) == (rate <= threshold)
  {
    var op := "<=>=";
    assert op[2..4] == ">=" && op[0..2] == "<=";
    OccursAtContains(op, ">=", 2);
    OccursAtContains(op, "<=", 0);
    CapturedOperatorIsAscii(op);
  }

  /** A rule written `... <op>N hours ...` compares the availability with N as `op` says. */
  lemma AvailabilityRule(salary: Salary, ruleText: string, p: string, op: string, n: nat, tail: string)
    requires Lower(ruleText) == p + op + NatToString(n) + " hour" + tail
    requires forall k :: 0 <= k < |p| ==> !IsOperatorChar(p[k])
    requires op == ">=" || op == "<=" || op == ">" || op == "<"
    ensures op == ">=" ==> (AvailabilityHolds(salary, ruleText) <==> salary.availability >= n)
    ensures op == "<=" ==> (AvailabilityHolds(salary, ruleText) <==> salary.availability <= n)
    ensures op == ">" ==> (AvailabilityHolds(salary, ruleText) <==> salary.availability > n)
    ensures op == "<" ==> (AvailabilityHolds(salary, ruleText) <==> salary.availability < n)
  {
    assert forall k :: 0 <= k < |op| ==> IsOperatorChar(op[k]);
    HoursRuleFound(p, op, n, tail);
    CompareHoursOperators(salary.availability, n);
  }

  /** Without `<`, `>`, `=` in the rule, only the full-time / part-time keywords count. */
  lemma AvailabilityKeywordsOnly(salary: Salary, ruleText: string)
    requires forall c | c in ruleText :: !IsOperatorChar(c)
    ensures AvailabilityHolds(salary, ruleText) <==>
      (Contains(Lower(ruleText), "full-time") && salary.availability >= 35)
      || (!Contains(Lower(ruleText), "full-time") && Contains(Lower(ruleText), "part-time") && salary.availability < 35)
  {
    NoOperatorNoComparison(Lower(ruleText));
  }

  // ---------------------------------------------------------------------------
  // The dispatch

  /** `_evaluate_rule` on a lower-cased criterion; the generic evaluator always fails. */
  function RuleHolds(record: Record, criterion: string, ruleText: string, now: YearMonth): bool {
    match Classify(criterion)
    case Experience => ExperienceHolds(record.experience, ruleText, now)
    case Compensation => CompensationHolds(record.salary, ruleText)
    case Location => LocationHolds(record.personal, ruleText)
    case Technology => TechnologyHolds(record.experience, ruleText)
    case Availability => AvailabilityHolds(record.salary, ruleText)
    case Generic => false
  }

  method EvaluateRule(record: Record, criterion: string, ruleText: string, now: YearMonth)
    returns (passed: bool)
    ensures passed == RuleHolds(record, criterion, ruleText, now)
  {
    match Classify(criterion)
    case Experience => passed := EvaluateExperienceRule(record.experience, ruleText, now);
    case Compensation => passed := CompensationHolds(record.salary, ruleText);
    case Location => passed := LocationHolds(record.personal, ruleText);
    case Technology => passed := EvaluateTechnologyRule(record.experience, ruleText);
    case Availability => passed := AvailabilityHolds(record.salary, ruleText);
    case Generic => passed := false;
  }

  /** A criterion naming none of the known topics never passes. */
  lemma UnrecognisedCriterionFails(record: Record, criterion: string, ruleText: string, now: YearMonth)
    requires !Contains(criterion, "experience") && !Contains(criterion, "compensation") && !Contains(criterion, "rate")
    requires !Contains(criterion, "salary") && !Contains(criterion, "location") && !Contains(criterion, "technology")
    requires !Contains(criterion, "skill") && !Contains(criterion, "availability")
    ensures !RuleHolds(record, criterion, ruleText, now)
  {
  }

  /** Only the experience rules read the clock: the other results do not depend on `now`. */
  lemma OnlyExperienceReadsClock(record: Record, criterion: string, ruleText: string, now1: YearMonth, now2: YearMonth)
    requires Classify(criterion) != Experience
    ensures RuleHolds(record, criterion, ruleText, now1) == RuleHolds(record, criterion, ruleText, now2)
  {
  }
}

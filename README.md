# Shortlisting and compression core of mercor-airtable, in Dafny

mercor-airtable keeps contractor applications in Airtable. It has two parts at its centre:

- The **shortlist engine** (`ShortlistEngine`) scores an applicant's normalized record against the active shortlisting rules. Each rule has a criterion, a rule text and points. The applicant is shortlisted when the score reaches a threshold, which defaults to 2.
- The **JSON compressor** (`JSONCompressor`) builds the normalized record. It hashes the record's content, truncates the work history to fit a size budget (102400 characters by default), and encodes the result as gzip + base64.

The model follows the Python code branch by branch. The code's loops become Dafny methods. Each method's result is stated in terms of specification functions, and the promised properties are proved about those functions.

Modules, in dependency order:

- `Text`: Python string helpers with their Python meaning:
  - `str.lower` on ASCII;
  - `in` on strings (substring);
  - `strip()` with the whole `str.isspace` set;
  - `str.replace(old, "")`;
  - `int()` of ASCII digits and its inverse;
  - string ordering.
- `Applicant`: the normalized record (`personal_details`, `work_experience`, `salary_preferences`, `metadata`).
- `Foreign`: the library calls used but not looked into (JSON text, SHA-256, gzip + base64). They are a record of functions, and `Lawful` states the two facts assumed about them: decoding undoes encoding, and parsing the compact JSON of a record gives that record back.
- `Normalization`: `_normalize_data`. This covers the per-entry `sorted`, the stable `sort(key=end, reverse=True)` and the default values.
- `Tenure`: `YYYY-MM` parsing as `strptime` does it, months per job, and total and per-technology experience.
- `Patterns`: the regular expressions of the rule evaluators, each as a matcher at a position plus leftmost search (the `re.search` semantics).
- `RuleEvaluation`: criterion dispatch, the five category evaluators and the generic fallback.
- `Scoring`: `_get_active_rules` projection, `_calculate_score` with its reason text, and the threshold decision of `evaluate_applicant`.
- `Compression`: hash, size optimization, compress and decompress.
- `ShortlistExamples`: the applicant of tests/test_shortlist_engine.py, evaluated by the model in lemmas, rule by rule.

Years of experience are kept as whole months. Since no month count is fractional, `months / 12.0 >= n` holds exactly when `months >= 12 * n`. The current date is a parameter `now`. The normalization timestamp is a parameter `compressedAt`.

### Where the code and its test file disagree

The lemmas state what the code does. In four places that differs from tests/test_shortlist_engine.py:

- **"US only"** (test line 127 expects a pass). The location "San Francisco, CA", lower-cased, contains none of `us`, `usa`, `united states` or `america`, so the rule fails (`ShortlistExamples.UsOnlyExample`).
- **"has Go"** (test line 134 expects a fail). The requirement `go` is matched as a substring of each technology, and `mongodb` contains it, so the rule passes (`ShortlistExamples.HasGoExample`).
- **Rule rows in the shortlisting tests** (lines 74-111). The mocked rows carry lower-case keys such as `criterion`. `_get_active_rules` reads `Criterion`, `Rule` and `Points`, so every projected rule has an empty criterion and 0 points. An empty criterion falls to the generic evaluator, which always fails. The score is then 0 and nobody is shortlisted (`Scoring.MissingCriterionNeverPasses`, `Scoring.NoCriteriaNotShortlisted`).
- **A store that raises** (lines 168-176 expect "evaluation failed"). `_get_active_rules` catches the error itself and returns no rules, so `evaluate_applicant` answers "No active shortlisting rules found" (`ShortlistExamples.ListingFailureExample`, with `Scoring.EvaluateApplicant`).

Other behaviour of the code that the model keeps as written:

- The `≤`/`≥` branches of the compensation and availability evaluators can never fire, because the pattern `[<>=]+` only captures ASCII operators (`RuleEvaluation.CapturedOperatorIsAscii`).
- `=N hours` matches the hours pattern but takes no branch. The full-time/part-time keywords then decide (`RuleEvaluation.EqualsHoursFallsThrough`).
- `_optimize_data_size` never goes below one entry. A record with one entry or none is returned oversized (`Compression.OptimizedSpec`).
- A rule row without `id` raises inside `_get_active_rules`, and the handler returns no rules at all (`Scoring.GetActiveRules`).

## Model

| member | source | states |
|---|---|---|
| Text.LowerIdempotent | app/models/shortlist_engine.py:305-308 | lower-casing a lower-cased string changes nothing, so lower-casing the technology twice is harmless |
| Text.LowerLeavesNoCapitals | app/models/shortlist_engine.py:161 | no ASCII capital is left after `lower()`, and a text without capitals is its own lower case |
| Text.ContainsIff | app/models/shortlist_engine.py:216 | the `in` test on strings holds exactly when the needle occurs at some position |
| Text.ContainsTransitive | app/models/shortlist_engine.py:216 | a substring of a substring is a substring |
| Text.StripPadded | app/models/shortlist_engine.py:244 | stripping leading whitespace from a word gives the word back |
| Text.StripSurrounded | app/models/shortlist_engine.py:173 | `strip()` removes the whitespace on both sides of a word and nothing else |
| Text.StripBlank | app/models/shortlist_engine.py:244 | a text of whitespace only strips to the empty string |
| Text.RemoveLeftmost | app/models/shortlist_engine.py:244 | `replace(word, "")` keeps the text before the leftmost occurrence of the word, drops that occurrence whole, and goes on after it |
| Text.NatToStringRoundTrip | app/models/shortlist_engine.py:165 | `int()` of the decimal digits of a number gives back that number |
| Text.LexLeReflexive | app/models/compression.py:90 | every string is at most itself |
| Text.LexLeTotal | app/models/compression.py:90 | string ordering is total, as the sorts need |
| Text.LexLeTransitive | app/models/compression.py:95 | string ordering is transitive |
| Text.LexLeAntisymmetric | app/models/compression.py:90 | two strings each at most the other are equal |
| Text.JoinEndsWithLast | app/models/shortlist_engine.py:126 | the joined reason ends with its last part |
| Applicant.ContentIgnoresMetadata | app/models/compression.py:150 | two records have the same hashed content exactly when they differ at most in `metadata` |
| Normalization.InsertStringCorrect | app/models/compression.py:90 | one insertion step of `sorted` adds the element and keeps the list ascending |
| Normalization.SortStringsCorrect | app/models/compression.py:90 | `sorted(technologies)` is ascending and a permutation of its argument |
| Normalization.SortedAscUnique | app/models/compression.py:90 | two ascending lists with the same elements are equal, so the sorted list is determined by its elements |
| Normalization.SortStringsIgnoresOrder | app/models/compression.py:90 | sorting two orderings of the same technologies gives the same list |
| Normalization.InsertByEndCorrect | app/models/compression.py:95 | one insertion step of the sort by `end` adds the entry and keeps `end` descending |
| Normalization.InsertByEndStable | app/models/compression.py:95 | inserting keeps the relative order of the entries sharing an `end` |
| Normalization.SortByEndDescCorrect | app/models/compression.py:95 | the work history comes out with `end` descending and as a permutation of the input |
| Normalization.SortByEndDescStable | app/models/compression.py:95 | entries with equal `end` keep their input order (stable `list.sort` with `reverse=True`) |
| Normalization.NormalizedShape | app/models/compression.py:73-117 | the normalized history is sorted by `end` descending, stable, each technologies list ascending, and `total_experience_entries` counts the entries |
| Normalization.NormalizeDefaults | app/models/compression.py:84-110 | missing fields become "", 0, "USD", 40 and the empty technologies list |
| Normalization.NormalizeData | app/models/compression.py:73-117 | the loop builds the normalized record, sorted by `end` descending, a permutation of the projected entries, with the entry count stored |
| Tenure.ParseMonth | app/models/shortlist_engine.py:327 | a parsed `%m` lies in 1..12 |
| Tenure.ParseYearMonth | app/models/shortlist_engine.py:327-330 | a parse that succeeds gives a valid year and month from exactly four digits, a dash and one or two month digits |
| Tenure.ParseFormatRoundTrip | app/models/shortlist_engine.py:327-330 | every valid month written as zero-padded `YYYY-MM` parses back to itself |
| Tenure.EntryMonthsCases | app/models/shortlist_engine.py:315-339 | per-job months: 0 without a start or on a parse failure, months to `now` when the end is empty or "present", else months between the dates, never negative |
| Tenure.ClosedEntryMonths | app/models/shortlist_engine.py:315-335 | a job with both dates in `YYYY-MM` form lasts the months between them or 0 |
| Tenure.TechMonthsAtMostTotal | app/models/shortlist_engine.py:287-313 | months with a technology never exceed total months |
| Tenure.TechMonthsAllMatching | app/models/shortlist_engine.py:287-313 | when every job lists the technology, technology months equal total months |
| Tenure.EmptyTechnologyMatchesAnyListed | app/models/shortlist_engine.py:308 | an empty requirement is contained in any technology, so every job that lists one counts |
| Tenure.TotalExperienceMonths | app/models/shortlist_engine.py:287-297 | the loop returns the sum of per-job months over the whole history |
| Tenure.TechExperienceMonths | app/models/shortlist_engine.py:299-313 | the loop returns the months of the jobs listing the technology, at most the total |
| Patterns.LeadingNumber | app/models/shortlist_engine.py:165 | the `\d+` group is read only when at least one digit is consumed |
| Patterns.FirstMatchIsLeftmost | app/models/shortlist_engine.py:161 | `re.search` returns the match at the first position where the pattern matches |
| Patterns.FirstMatchNone | app/models/shortlist_engine.py:161-163 | no search result means no position matches |
| Patterns.FirstMatchAt | app/models/shortlist_engine.py:161 | a match at `i`, with none before, is the search result |
| Patterns.YearsAt | app/models/shortlist_engine.py:161 | `>=?(\d+)\s*years?` matches at a position only where `>` stands |
| Patterns.RateAt | app/models/shortlist_engine.py:187 | a match of `([<>=]+)\s*\$?(\d+)` has a non-empty operator of `<`, `>`, `=` only |
| Patterns.HoursAt | app/models/shortlist_engine.py:257 | a match of `([<>=]+)\s*(\d+)\s*hours?` has a non-empty ASCII operator |
| Patterns.TechInAt | app/models/shortlist_engine.py:171 | a match of `in\s+([a-zA-Z+\s]+)` has a non-empty group of letters, `+` and whitespace |
| Patterns.NoOperatorNoComparison | app/models/shortlist_engine.py:187-189 | a text without `<`, `>`, `=` matches neither the rate nor the hours pattern |
| Patterns.StrictAndInclusiveYearsAgree | app/models/shortlist_engine.py:161 | `>N years` and `>=N years` give the same N, because the `=` is optional |
| Patterns.YearsRuleFound | app/models/shortlist_engine.py:161-165 | in `p >=N year...` with no `>` in `p` the search yields N |
| Patterns.RateRuleFound | app/models/shortlist_engine.py:187-192 | in `p <op>[$]N...` with no operator in `p` the search yields that operator and N |
| Patterns.HoursRuleFound | app/models/shortlist_engine.py:257-260 | in `p <op>N hour...` with no operator in `p` the search yields that operator and N |
| Patterns.TechInFound | app/models/shortlist_engine.py:171-173 | in `p in <group>` with no `i` in `p` the technology group is captured, up to the first character outside the class |
| Patterns.NoInNoTechnology | app/models/shortlist_engine.py:171-176 | a text without `in` has no technology group |
| RuleEvaluation.Classify | app/models/shortlist_engine.py:136-148 | each category is chosen exactly when its keyword occurs and none of the keywords tested before it does: experience, then compensation/rate/salary, location, technology/skill, availability, and generic when none occurs |
| RuleEvaluation.EvaluateExperienceRule | app/models/shortlist_engine.py:154-177 | no years pattern fails; with an `in` group, technology months are compared with 12*N; otherwise total months are |
| RuleEvaluation.TechnologyClauseIsStricter | app/models/shortlist_engine.py:170-177 | passing `>=N years in X` implies N years of experience overall |
| RuleEvaluation.ExperienceRuleTotal | app/models/shortlist_engine.py:161-177 | a `>=N years` rule without `in` passes exactly when total months reach 12*N |
| RuleEvaluation.CapturedOperatorIsAscii | app/models/shortlist_engine.py:194-197 | a captured operator of `<`, `>`, `=` never contains `≤` or `≥`, so those tests never fire |
| RuleEvaluation.CompareRateOperators | app/models/shortlist_engine.py:194-205 | the branch order gives `<=`, `>=`, `<`, `>`, `=` their usual meaning |
| RuleEvaluation.CompensationRule | app/models/shortlist_engine.py:179-205 | a rule `<op>$N` or `<op>N` passes exactly when the preferred rate compares with N as `op` says, for each of the five operators |
| RuleEvaluation.CompensationWithoutAsciiOperatorFails | app/models/shortlist_engine.py:187-189 | a compensation rule without `<`, `>`, `=` never passes |
| RuleEvaluation.UsOnlyRule | app/models/shortlist_engine.py:216-217 | under a "US only" rule the location passes exactly when it contains `us`, `united states` or `america` |
| RuleEvaluation.EmptyLocationRulePasses | app/models/shortlist_engine.py:223-225 | an empty location rule passes every applicant (direct substring match) |
| RuleEvaluation.StripKeywordsUnchanged | app/models/shortlist_engine.py:243-244 | a stripped text without any keyword leaves the keyword loop unchanged |
| RuleEvaluation.KeywordsNonEmpty | app/models/shortlist_engine.py:240 | none of `has`, `experience`, `with`, `in` is empty |
| RuleEvaluation.AllTechnologies | app/models/shortlist_engine.py:235-237 | the collected list holds exactly the lower-cased technologies of all jobs |
| RuleEvaluation.AnyTechnology | app/models/shortlist_engine.py:247 | searching the flattened list is the same as searching job by job |
| RuleEvaluation.CollectTechnologies | app/models/shortlist_engine.py:234-237 | the collection loop returns every technology, lower-cased, in order |
| RuleEvaluation.RemoveKeywords | app/models/shortlist_engine.py:240-244 | the keyword loop removes and strips keyword by keyword |
| RuleEvaluation.EvaluateTechnologyRule | app/models/shortlist_engine.py:227-247 | the evaluator passes exactly when some technology of some job contains the stripped requirement |
| RuleEvaluation.NoTechnologiesFails | app/models/shortlist_engine.py:247 | a history with no technologies fails every technology rule |
| RuleEvaluation.EmptyRequirementPasses | app/models/shortlist_engine.py:247 | a rule that is only keywords and spaces passes anyone who lists a technology |
| RuleEvaluation.EqualsHoursFallsThrough | app/models/shortlist_engine.py:257-277 | `=N hours` takes no operator branch and falls to the full-time/part-time keywords |
| RuleEvaluation.CompareHoursOperators | app/models/shortlist_engine.py:262-269 | the hours branches give `>=`, `<=`, `>`, `<` their usual meaning, and `=` takes no branch |
| RuleEvaluation.OperatorOrderDiffers | app/models/shortlist_engine.py:194-197 | hours test `>=` before `<=` and rates test `<=` before `>=`, so an operator run holding both reads as "at least" for hours and "at most" for rates |
| RuleEvaluation.AvailabilityRule | app/models/shortlist_engine.py:257-269 | a rule `<op>N hours` passes exactly when availability compares with N as `op` says, for each of `>=`, `<=`, `>`, `<` |
| RuleEvaluation.AvailabilityKeywordsOnly | app/models/shortlist_engine.py:271-277 | without an operator, full-time means at least 35 hours, part-time below 35, anything else fails |
| RuleEvaluation.EvaluateRule | app/models/shortlist_engine.py:131-152 | rule evaluation is the chosen evaluator on the record |
| RuleEvaluation.UnrecognisedCriterionFails | app/models/shortlist_engine.py:146-148 | a criterion naming no known topic goes to the generic evaluator and fails |
| RuleEvaluation.OnlyExperienceReadsClock | app/models/shortlist_engine.py:131-152 | results of non-experience rules do not depend on the current date |
| Scoring.ProjectRule | app/models/shortlist_engine.py:76-83 | a row keeps its id and takes each of `Criterion`, `Rule`, `Points`, `Description` from `fields`, "" or 0 when the column is missing; a missing `fields` gives "", "", 0, "" |
| Scoring.GetActiveRules | app/models/shortlist_engine.py:64-89 | with every row carrying an id, one rule per row in order; a failed listing or a row without id gives no rules |
| Scoring.BuildReasonParts | app/models/shortlist_engine.py:113-122 | the reason parts are the passed group, the failed group, each only when non-empty, then the total line |
| Scoring.ScoreStep | app/models/shortlist_engine.py:99-110 | one more rule adds its points and a line on the passed side, or a line on the failed side |
| Scoring.CalculateScore | app/models/shortlist_engine.py:91-129 | the score is the points of the passing rules; the counts are the passed and failed lines and add up to the rule count; the reason is the joined parts |
| Scoring.ScoreBounds | app/models/shortlist_engine.py:91-122 | with non-negative points the score lies between 0 and the points on offer |
| Scoring.AllPassedFullScore | app/models/shortlist_engine.py:91-122 | when every rule passes the score is the full total and no rule is reported failed |
| Scoring.NonePassedZeroScore | app/models/shortlist_engine.py:91-122 | when no rule passes the score is 0 and every rule is reported failed |
| Scoring.LinesPartitionRules | app/models/shortlist_engine.py:106-110 | each rule is reported exactly once, as passed or as failed |
| Scoring.ReasonHeaders | app/models/shortlist_engine.py:113-122 | the reason opens with the passed header when something passed, otherwise with the failed header or the total |
| Scoring.ReasonEndsWithTotal | app/models/shortlist_engine.py:122-126 | the reason always ends with the total line |
| Scoring.EvaluateApplicant | app/models/shortlist_engine.py:11-62 | no rules is an error; otherwise the applicant is shortlisted exactly when the score reaches the threshold, with the score, the joined score reason and the rule count reported |
| Scoring.MissingCriterionNeverPasses | app/models/shortlist_engine.py:78-79 | a row whose fields lack `Criterion` gives a rule that never passes |
| Scoring.NoCriteriaNotShortlisted | app/models/shortlist_engine.py:29 | rows without `Criterion` never reach a positive threshold |
| Compression.HashIgnoresMetadata | app/models/compression.py:145-152 | records differing only in `metadata` hash alike |
| Compression.HashIgnoresTimestamp | app/models/compression.py:111-113 | the normalization time does not enter the hash |
| Compression.HashIgnoresTechnologyOrder | app/models/compression.py:90 | listing a job's technologies in another order changes neither the normalized history nor the hash |
| Compression.Truncated | app/models/compression.py:136-137 | a cut keeps the first k entries, records the dropped count, keeps `compressed_at` and `total_experience_entries`, and leaves the other sections alone |
| Compression.KeptFrom | app/models/compression.py:133-141 | the loop keeps between one entry and the count it starts from |
| Compression.KeptFromSpec | app/models/compression.py:133-141 | the loop stops at the largest count below the start that fits, or at one entry |
| Compression.OptimizedSpec | app/models/compression.py:119-143 | a fitting record is returned unchanged; otherwise the longest fitting prefix of at least one entry, or one entry when none fits, or the input if it has one entry or none |
| Compression.OptimizedFits | app/models/compression.py:119-143 | with two or more entries, if one entry fits then the result fits |
| Compression.OptimizedKeepsPrefix | app/models/compression.py:129-136 | optimization keeps a prefix of the history, so the most recent entries |
| Compression.KeptFromMonotone | app/models/compression.py:133-141 | a smaller budget never makes the loop keep more entries |
| Compression.OptimizedMonotone | app/models/compression.py:119-143 | the number of entries kept never grows as the size budget shrinks |
| Compression.OptimizeDataSize | app/models/compression.py:119-143 | the loop computes the optimized record |
| Compression.CompressApplicantData | app/models/compression.py:13-49 | the hash is that of the normalized record; unchanged exactly when it equals `current_hash`, then no payload and size 0; otherwise the payload encodes the optimized record with its size and original size |
| Compression.DecompressApplicantData | app/models/compression.py:51-71 | success exactly when the payload decodes and the text parses, and then the data is the parsed value; otherwise an error and no data |
| Compression.RoundTrip | app/models/compression.py:38-65 | decompressing a payload built from a record gives that record back |
| Compression.StoredRecordShape | app/models/compression.py:13-71 | what a changed compression stores restores to a normalized, optimized record |
| ShortlistExamples.SampleMonths | tests/test_shortlist_engine.py:142-148 | the sample history totals 65 months (about 5.4 years, between 4 and 7) for any current date |
| ShortlistExamples.PythonOnlyAtTechCorp | tests/test_shortlist_engine.py:150-156 | only Tech Corp counts towards Python, 47 months, between 3 and 5 years |
| ShortlistExamples.ThreeYearsPasses | tests/test_shortlist_engine.py:115 | `>=3 years` passes |
| ShortlistExamples.SixYearsFails | tests/test_shortlist_engine.py:116 | `>=6 years` fails |
| ShortlistExamples.ExperienceInPythonExample | tests/test_shortlist_engine.py:117 | `>=2 years in Python` passes |
| ShortlistExamples.AtMostHundredPasses | tests/test_shortlist_engine.py:121 | `<=$100/hr` passes for a rate of 95 |
| ShortlistExamples.AtMostEightyFails | tests/test_shortlist_engine.py:122 | `<=$80/hr` fails |
| ShortlistExamples.AtLeastNinetyPasses | tests/test_shortlist_engine.py:123 | `>=90/hr` passes |
| ShortlistExamples.UsOnlyExample | tests/test_shortlist_engine.py:127 | `US only` fails for San Francisco, CA, against the test's expectation |
| ShortlistExamples.EuropeExample | tests/test_shortlist_engine.py:128 | `Europe` fails |
| ShortlistExamples.HasPythonExample | tests/test_shortlist_engine.py:132 | `has Python` passes |
| ShortlistExamples.ReactExperienceExample | tests/test_shortlist_engine.py:133 | `React experience` passes: removing `experience` and stripping leaves `react`, which Tech Corp lists |
| ShortlistExamples.HasGoExample | tests/test_shortlist_engine.py:134 | `has Go` passes through MongoDB, against the test's expectation |
| ShortlistExamples.FortyHoursPasses | tests/test_shortlist_engine.py:138 | `>=40 hours` passes |
| ShortlistExamples.FiftyHoursFails | tests/test_shortlist_engine.py:139 | `>=50 hours` fails |
| ShortlistExamples.FullTimePasses | tests/test_shortlist_engine.py:140 | `full-time` passes for 40 hours |
| ShortlistExamples.ListingFailureExample | tests/test_shortlist_engine.py:168-176 | a listing that raises gives no rules and no score, so the result is "no active rules", not an evaluation failure |

## Left out

- Airtable I/O. `list_records` with the `{Active} = TRUE()` formula is modelled by its result: `None` when the call raises, otherwise the rows. The filter itself runs in Airtable.
- The lead store on the shortlisted path is not part of this model: `_prepare_compressed_data`, `_create_shortlisted_lead` and `get_shortlisted_leads`. `Scoring.EvaluateApplicant` models the decision and the reported score. It does not model the `shortlist_id` returned by the store.
- Scoring.EvaluateApplicant: its `Shortlisted` outcome when the score reaches `minScore` assumes that storing the lead succeeds. When `_create_shortlisted_lead` raises (app/models/shortlist_engine.py:31-36), the outer handler (lines 56-61) returns an unsuccessful result with `shortlisted` false; that path is not modelled.
- `DataRestorer` (restoring records from a payload) is not part of this model.
- The JSON text format, SHA-256, gzip and base64 are caller-supplied functions. Two facts are assumed about them (`Foreign.Lawful`): decoding undoes encoding, and parsing the compact JSON of a record gives the record back. Only the round-trip lemmas require them.
- `datetime.now()` is the parameter `now` in tenure, and `compressedAt` for the normalization timestamp.
- Floating point is not modelled. Years are compared as whole months (exact, because months are integers), and `compression_ratio` is not modelled.
- `Salary.preferredRate`, `Salary.minRate` and `Salary.availability` are integers, although an Airtable number or currency column can hold a fraction. The rate and hour comparisons (`RuleEvaluation.CompareRate`, `RuleEvaluation.CompareHours`) are therefore modelled over integers only.
- `str.lower()` is ASCII only, and `\d` and `int()` accept ASCII digits only. Other Unicode letters and digits are not modelled.
- Values of the wrong type in the input (a number where a string is expected, `fields` that is not a dictionary) are not modelled, and neither are the exceptions they raise. The record always has the normalized shape. A section missing from the input reads as a section with every field missing.
- `json.loads` can give any JSON value. The model only speaks of the value the parse function returns.
- `_optimize_data_size` copies the record shallowly, so writing `truncated_entries` also writes the input's `metadata`. This aliasing is not modelled: the result carries the new `metadata` and the input is left unchanged.
- The sorts `sorted()` and `list.sort` are modelled as functions (an insertion sort with proved order, permutation and stability), not as in-place operations.
- `Compression.CompressApplicantData`: does not state `compression_ratio` (a float).
- Patterns.LeadingNumber, and through it the experience, compensation and availability evaluators: does not model CPython's limit on `int()` of more than 4300 digits (a `ValueError` since 3.11 and its security backports), which `_evaluate_rule` would turn into `False`; the model reads the number at any length. The repository does not pin a Python version.

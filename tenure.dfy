/**
 * Tenure arithmetic of the shortlist engine
 * (app/models/shortlist_engine.py:287-339): whole months per job from
 * `YYYY-MM` strings, summed over all jobs or over the jobs that list a
 * technology. Years are kept as months: `months / 12.0 >= n` is `months >= 12 * n`.
 */
module Tenure {
  import opened Text
  import opened Applicant

  /** A month of the calendar; `now` is one of these, passed in by the caller. */
  datatype YearMonth = YearMonth(year: int, month: int)

  predicate ValidYearMonth(d: YearMonth) {
    1 <= d.year <= 9999 && 1 <= d.month <= 12
  }

  /**
   * `%m` of strptime, the alternation `1[0-2]|0[1-9]|[1-9]` tried in that
   * order, followed by the check that nothing is left over.
   */
  function ParseMonth(t: string): (r: Option<int>)
    ensures r.Some? ==> 1 <= r.value <= 12
  {
    if |t| == 2 && t[0] == '1' && '0' <= t[1] <= '2' then Some(10 + DigitValue(t[1]))
    else if |t| >= 2 && t[0] == '1' && '0' <= t[1] <= '2' then None
    else if |t| == 2 && t[0] == '0' && '1' <= t[1] <= '9' then Some(DigitValue(t[1]))
    else if |t| >= 2 && t[0] == '0' && '1' <= t[1] <= '9' then None
    else if |t| == 1 && '1' <= t[0] <= '9' then Some(DigitValue(t[0]))
    else None
  }

  /**
   * `datetime.strptime(s, "%Y-%m")`: exactly four digits for the year, a dash,
   * the month; year 0 is refused by `datetime` itself.
   */
  function ParseYearMonth(s: string): (r: Option<YearMonth>)
    ensures r.Some? ==> ValidYearMonth(r.value)
    ensures r.Some? ==> 6 <= |s| <= 7 && s[4] == '-' && AllDigits(s[..4])
  {
    if |s| >= 5 && AllDigits(s[..4]) && s[4] == '-' && DigitsValue(s[..4]) >= 1 then
      FourDigits(s[..4]);
      match ParseMonth(s[5..])
      case Some(m) => Some(YearMonth(DigitsValue(s[..4]), m))
      case None => None
    else None
  }

  /** The value of four digits, place by place. */
  lemma FourDigits(y: string)
    requires |y| == 4 && AllDigits(y)
    ensures DigitsValue(y) == 1000 * DigitValue(y[0]) + 100 * DigitValue(y[1]) + 10 * DigitValue(y[2]) + DigitValue(y[3])
  {
    var y1, y2, y3 := y[..1], y[..2], y[..3];
    assert y1[..0] == [] && y2[..1] == y1 && y3[..2] == y2 && y[..|y| - 1] == y3;
    assert DigitsValue(y1) == DigitValue(y[0]);
    assert DigitsValue(y2) == 10 * DigitValue(y[0]) + DigitValue(y[1]);
    assert DigitsValue(y3) == 100 * DigitValue(y[0]) + 10 * DigitValue(y[1]) + DigitValue(y[2]);
  }

  /** Zero-padded `YYYY-MM`, the form the records hold. */
  function FormatYearMonth(d: YearMonth): (s: string)
    requires ValidYearMonth(d)
  {
    [DigitChar(d.year / 1000), DigitChar(d.year / 100 % 10), DigitChar(d.year / 10 % 10), DigitChar(d.year % 10),
     '-', DigitChar(d.month / 10), DigitChar(d.month % 10)]
  }

  lemma PlaceValues(n: nat)
    requires n < 10000
    ensures n == 1000 * (n / 1000) + 100 * (n / 100 % 10) + 10 * (n / 10 % 10) + n % 10
  {
    var a, b, c := n / 10, n / 100, n / 1000;
    assert n == 10 * a + n % 10;
    assert a / 10 == b && a == 10 * b + a % 10;
    assert b / 10 == c && b == 10 * c + b % 10;
    assert c < 10;
  }

  /** Every valid month written as `YYYY-MM` parses back to itself. */
  lemma ParseFormatRoundTrip(d: YearMonth)
    requires ValidYearMonth(d)
    ensures ParseYearMonth(FormatYearMonth(d)) == Some(d)
  {
    var s := FormatYearMonth(d);
    var y := s[..4];
    assert AllDigits(y);
    FourDigits(y);
    PlaceValues(d.year);
    assert DigitsValue(y) == d.year;
    assert s[5..] == [s[5], s[6]];
    assert ParseMonth(s[5..]) == Some(d.month);
  }

  /** `end` means "now" when it is empty or, in any case, "present". */
  predicate IsOpenEnded(end: string) {
    end == "" || Lower(end) == "present"
  }

  /** Months between two calendar months, ignoring days. */
  function MonthsBetween(from: YearMonth, to: YearMonth): int {
    (to.year - from.year) * 12 + (to.month - from.month)
  }

  /** `_calculate_experience_months`: 0 whenever a date fails to parse. */
  function EntryMonths(e: Entry, now: YearMonth): nat {
    if e.start == "" then 0
    else match ParseYearMonth(e.start)
      case None => 0
      case Some(from) =>
        var to := if IsOpenEnded(e.end) then Some(now) else ParseYearMonth(e.end);
        match to
        case None => 0
        case Some(t) => if MonthsBetween(from, t) > 0 then MonthsBetween(from, t) else 0
  }

  /** The month count of one job, case by case. */
  lemma EntryMonthsCases(e: Entry, now: YearMonth)
    ensures e.start == "" || ParseYearMonth(e.start) == None ==> EntryMonths(e, now) == 0
    ensures !IsOpenEnded(e.end) && ParseYearMonth(e.end) == None ==> EntryMonths(e, now) == 0
    ensures forall from :: ParseYearMonth(e.start) == Some(from) && IsOpenEnded(e.end) ==>
      EntryMonths(e, now) == Max0(MonthsBetween(from, now))
    ensures forall from, to :: ParseYearMonth(e.start) == Some(from) && ParseYearMonth(e.end) == Some(to) ==>
      EntryMonths(e, now) == Max0(MonthsBetween(from, to))
  {
    if ParseYearMonth(e.start).Some? { assert e.start != ""; }
    if ParseYearMonth(e.end).Some? { assert e.end != "" && Lower(e.end) != "present"; }
  }

  function Max0(n: int): nat { if n > 0 then n else 0 }

  /** A job with both dates written as `YYYY-MM` lasts the months between them, never less than 0. */
  lemma ClosedEntryMonths(e: Entry, from: YearMonth, to: YearMonth, now: YearMonth)
    requires ValidYearMonth(from) && ValidYearMonth(to)
    requires e.start == FormatYearMonth(from) && e.end == FormatYearMonth(to)
    ensures EntryMonths(e, now) == Max0(MonthsBetween(from, to))
  {
    ParseFormatRoundTrip(from);
    ParseFormatRoundTrip(to);
    assert Lower(e.end)[0] == e.end[0] != 'p';
  }

  // ---------------------------------------------------------------------------
  // Sums over the work history

  /** Total months over all entries. */
  function SumMonths(s: seq<Entry>, now: YearMonth): nat {
    if s == [] then 0 else SumMonths(s[..|s| - 1], now) + EntryMonths(s[|s| - 1], now)
  }

  /** Some technology of the entry, lower-cased, contains `needle`. */
  predicate ListsTechnology(e: Entry, needle: string) {
    exists t | t in e.technologies :: Contains(Lower(t), needle)
  }

  /** Months over the entries that mention `required` in one of their technologies. */
  function TechMonths(s: seq<Entry>, required: string, now: YearMonth): nat {
    if s == [] then 0
    else
      var last := if ListsTechnology(s[|s| - 1], Lower(required)) then EntryMonths(s[|s| - 1], now) else 0;
      TechMonths(s[..|s| - 1], required, now) + last
  }

  /** Technology-filtered months never exceed the total. */
  lemma {:induction false} TechMonthsAtMostTotal(s: seq<Entry>, required: string, now: YearMonth)
    ensures TechMonths(s, required, now) <= SumMonths(s, now)
  {
    if s != [] {
      TechMonthsAtMostTotal(s[..|s| - 1], required, now);
    }
  }

  /** When every entry mentions the technology, the filtered sum is the total. */
  lemma {:induction false} TechMonthsAllMatching(s: seq<Entry>, required: string, now: YearMonth)
    requires forall i :: 0 <= i < |s| ==> ListsTechnology(s[i], Lower(required))
    ensures TechMonths(s, required, now) == SumMonths(s, now)
  {
    if s != [] {
      TechMonthsAllMatching(s[..|s| - 1], required, now);
    }
  }

  /** An empty requirement is in every technology, so it selects every entry that lists one. */
  lemma EmptyTechnologyMatchesAnyListed(e: Entry)
    requires e.technologies != []
    ensures ListsTechnology(e, "")
  {
    assert e.technologies[0] in e.technologies;
    assert Contains(Lower(e.technologies[0]), "");
  }

  /** `_calculate_total_experience_years`, returning months. */
  method TotalExperienceMonths(workExperience: seq<Entry>, now: YearMonth) returns (totalMonths: nat)
    ensures totalMonths == SumMonths(workExperience, now)
  {
    totalMonths := 0;
    for i := 0 to |workExperience|
      invariant totalMonths == SumMonths(workExperience[..i], now)
    {
      assert workExperience[..i + 1][..i] == workExperience[..i];
      totalMonths := totalMonths + EntryMonths(workExperience[i], now);
    }
    assert workExperience[..|workExperience|] == workExperience;
  }

  /** `_calculate_tech_experience_years`, returning months. */
  method TechExperienceMonths(workExperience: seq<Entry>, requiredTech: string, now: YearMonth)
    returns (totalMonths: nat)
    ensures totalMonths == TechMonths(workExperience, requiredTech, now)
    ensures totalMonths <= SumMonths(workExperience, now)
  {
    totalMonths := 0;
    var requiredTechLower := Lower(requiredTech);
    for i := 0 to |workExperience|
      invariant totalMonths == TechMonths(workExperience[..i], requiredTech, now)
    {
      assert workExperience[..i + 1][..i] == workExperience[..i];
      var technologies := seq(|workExperience[i].technologies|,
        k requires 0 <= k < |workExperience[i].technologies| => Lower(workExperience[i].technologies[k]));
      if exists t | t in technologies :: Contains(t, requiredTechLower) {
        assert ListsTechnology(workExperience[i], Lower(requiredTech));
        totalMonths := totalMonths + EntryMonths(workExperience[i], now);
      } else {
        assert !ListsTechnology(workExperience[i], Lower(requiredTech)) by {
          forall t | t in workExperience[i].technologies
            ensures !Contains(Lower(t), Lower(requiredTech))
          {
            var k :| 0 <= k < |workExperience[i].technologies| && workExperience[i].technologies[k] == t;
            assert technologies[k] in technologies;
          }
        }
      }
    }
    assert workExperience[..|workExperience|] == workExperience;
    TechMonthsAtMostTotal(workExperience, requiredTech, now);
  }
}

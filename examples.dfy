/**
 * The applicant and rules of tests/test_shortlist_engine.py:18-69,
 * evaluated by the model in lemmas. Where the model and the expectations written in that
 * test file part ways, the lemma states what the code does.
 */
module ShortlistExamples {
  import opened Text
  import opened Applicant
  import opened Tenure
  import opened Patterns
  import opened RuleEvaluation
  import opened Scoring

  const TechCorp: Entry :=
    Entry("Tech Corp", "Senior Software Engineer", "2020-01", "2023-12", ["Python", "JavaScript", "React", "AWS"])
  const StartupInc: Entry :=
    Entry("Startup Inc", "Full Stack Developer", "2018-06", "2019-12", ["Node.js", "MongoDB", "Vue.js"])

  /** The test applicant, already in normalized order (latest end first). */
  const Sample: Record := Record(
    Personal("John Doe", "john@example.com", "San Francisco, CA", "https://linkedin.com/in/johndoe"),
    [TechCorp, StartupInc],
    Salary(95, 80, "USD", 40),
    Metadata("", 2, None))

  lemma TechCorpMonths(now: YearMonth)
    ensures EntryMonths(TechCorp, now) == 47
  {
    assert FormatYearMonth(YearMonth(2020, 1)) == "2020-01";
    assert FormatYearMonth(YearMonth(2023, 12)) == "2023-12";
    ClosedEntryMonths(TechCorp, YearMonth(2020, 1), YearMonth(2023, 12), now);
  }

  lemma StartupIncMonths(now: YearMonth)
    ensures EntryMonths(StartupInc, now) == 18
  {
    assert FormatYearMonth(YearMonth(2018, 6)) == "2018-06";
    assert FormatYearMonth(YearMonth(2019, 12)) == "2019-12";
    ClosedEntryMonths(StartupInc, YearMonth(2018, 6), YearMonth(2019, 12), now);
  }

  /** 47 months at Tech Corp plus 18 at Startup Inc, whatever the current date. */
  lemma SampleMonths(now: YearMonth)
    ensures SumMonths(Sample.experience, now) == 65
  {
    TechCorpMonths(now);
    StartupIncMonths(now);
    var w := Sample.experience;
    assert w[..|w| - 1] == [TechCorp] && w[|w| - 1] == StartupInc;
    assert [TechCorp][..0] == [];
    assert SumMonths([TechCorp], now) == 47;
  }

  /** A `>=N years` rule without `in` compares the sample's 65 months with 12 * N. */
  lemma SampleYearsRule(ruleText: string, n: nat, now: YearMonth)
    requires Lower(ruleText) == "" + ">=" + NatToString(n) + " year" + "s"
    requires 'i' !in Lower(ruleText)
    ensures ExperienceHolds(Sample.experience, ruleText, now) <==> 65 >= 12 * n
  {
    SampleMonths(now);
    MissingChar(Lower(ruleText), "in", 0);
    ExperienceRuleTotal(Sample.experience, ruleText, now, "", n, "s");
  }

  lemma ThreeYearsWords()
    ensures Lower(">=3 years") == "" + ">=" + NatToString(3) + " year" + "s"
    ensures 'i' !in Lower(">=3 years")
  {
  }

  lemma SixYearsWords()
    ensures Lower(">=6 years") == "" + ">=" + NatToString(6) + " year" + "s"
    ensures 'i' !in Lower(">=6 years")
  {
  }

  /** `>=3 years` passes: 65 months is at least 36. */
  lemma ThreeYearsPasses(now: YearMonth)
    ensures ExperienceHolds(Sample.experience, ">=3 years", now)
  {
    ThreeYearsWords();
    SampleYearsRule(">=3 years", 3, now);
  }

  /** `>=6 years` fails: 65 months is less than 72. */
  lemma SixYearsFails(now: YearMonth)
    ensures !ExperienceHolds(Sample.experience, ">=6 years", now)
  {
    SixYearsWords();
    SampleYearsRule(">=6 years", 6, now);
  }

  /** The technology group of `>=2 years in python` is `python`. */
  lemma InPythonGroup()
    ensures SearchTechIn(">=2 years in python") == Some("python")
  {
    assert ">=2 years " + "in " + "python" + "" == ">=2 years in python";
    TechInFound(">=2 years ", "python", "");
  }

  /** `>=2 years in python` asks for two years. */
  lemma TwoYearsGroup()
    ensures SearchYears(">=2 years in python") == Some(2)
  {
    assert "" + ">=" + NatToString(2) + " year" + "s in python" == ">=2 years in python";
    YearsRuleFound("", 2, "s in python");
  }

  /** Tech Corp lists Python and React. */
  lemma TechCorpListsPythonAndReact()
    ensures ListsTechnology(TechCorp, "python") && ListsTechnology(TechCorp, "react")
  {
    assert Lower("Python") == "python" && "Python" in TechCorp.technologies;
    assert Contains("python", "python");
    assert Lower("React") == "react" && "React" in TechCorp.technologies;
    assert Contains("react", "react");
  }

  /** Startup Inc does not: none of its technologies has a `y`. */
  lemma StartupIncLacksPython()
    ensures !ListsTechnology(StartupInc, "python")
  {
    forall t | t in StartupInc.technologies
      ensures !Contains(Lower(t), "python")
    {
      MissingChar(Lower(t), "python", 1);
    }
  }

  /** Of the two jobs only Tech Corp counts towards Python. */
  lemma PythonOnlyAtTechCorp(now: YearMonth)
    ensures TechMonths(Sample.experience, "python", now) == EntryMonths(TechCorp, now)
  {
    TechCorpListsPythonAndReact();
    StartupIncLacksPython();
    assert Lower("python") == "python";
    var w := Sample.experience;
    assert w[..|w| - 1] == [TechCorp] && w[|w| - 1] == StartupInc;
    assert [TechCorp][..0] == [];
    assert TechMonths([TechCorp], "python", now) == EntryMonths(TechCorp, now);
  }

  lemma LowerInPython()
    ensures Lower(">=2 years in Python") == ">=2 years in python"
  {
  }

  /** `>=2 years in Python`: 47 months of Python at Tech Corp, at least 24. */
  lemma ExperienceInPythonExample(now: YearMonth)
    ensures ExperienceHolds(Sample.experience, ">=2 years in Python", now)
  {
    LowerInPython();
    TwoYearsGroup();
    InPythonGroup();
    assert Strip("python") == "python";
    PythonOnlyAtTechCorp(now);
    TechCorpMonths(now);
  }

  /** `<=$100/hr` passes for a preferred rate of 95. */
  lemma AtMostHundredPasses()
    ensures CompensationHolds(Sample.salary, "<=$100/hr")
  {
    assert Lower("<=$100/hr") == "" + "<=" + "$" + NatToString(100) + "/hr";
    CompensationRule(Sample.salary, "<=$100/hr", "", "<=", "$", 100, "/hr");
  }

  /** `<=$80/hr` fails for a preferred rate of 95. */
  lemma AtMostEightyFails()
    ensures !CompensationHolds(Sample.salary, "<=$80/hr")
  {
    assert Lower("<=$80/hr") == "" + "<=" + "$" + NatToString(80) + "/hr";
    CompensationRule(Sample.salary, "<=$80/hr", "", "<=", "$", 80, "/hr");
  }

  /** `>=90/hr`, without a dollar sign, passes for a preferred rate of 95. */
  lemma AtLeastNinetyPasses()
    ensures CompensationHolds(Sample.salary, ">=90/hr")
  {
    assert Lower(">=90/hr") == "" + ">=" + "" + NatToString(90) + "/hr";
    CompensationRule(Sample.salary, ">=90/hr", "", ">=", "", 90, "/hr");
  }

  lemma LowerSampleLocation()
    ensures Lower(Sample.personal.location) == "san francisco, ca"
  {
  }

  /** Letters that "san francisco, ca" does not have. */
  lemma SanFranciscoLacksUM()
    ensures 'u' !in "san francisco, ca" && 'm' !in "san francisco, ca"
  {
  }

  lemma SanFranciscoLacksEP()
    ensures 'e' !in "san francisco, ca" && 'p' !in "san francisco, ca"
  {
  }

  lemma SanFranciscoLacksTB()
    ensures 't' !in "san francisco, ca" && 'b' !in "san francisco, ca"
  {
  }

  lemma LowerUsOnly()
    ensures Lower("US only") == "us only"
  {
  }

  lemma UsOnlyWords()
    ensures Contains("us only", "us") && Contains("us only", "only")
  {
    assert "us only"[3..7] == "only";
    OccursAtContains("us only", "only", 3);
  }

  /** None of `us`, `united states`, `america` occurs in "san francisco, ca". */
  lemma SanFranciscoNotUs()
    ensures !Contains("san francisco, ca", "us")
    ensures !Contains("san francisco, ca", "united states")
    ensures !Contains("san francisco, ca", "america")
  {
    SanFranciscoLacksUM();
    MissingChar("san francisco, ca", "us", 0);
    MissingChar("san francisco, ca", "united states", 0);
    MissingChar("san francisco, ca", "america", 1);
  }

  /**
   * "US only" fails for "San Francisco, CA": no US name occurs in the
   * location (the test file expects a pass).
   */
  lemma UsOnlyExample()
    ensures !LocationHolds(Sample.personal, "US only")
  {
    LowerUsOnly();
    UsOnlyWords();
    UsOnlyRule(Sample.personal, "US only");
    LowerSampleLocation();
    SanFranciscoNotUs();
  }

  lemma EuropeWords()
    ensures Lower("Europe") == "europe"
    ensures !Contains("europe", "us") && !Contains("europe", "remote") && Contains("europe", "europe")
  {
    assert 's' !in "europe" && 'm' !in "europe";
    MissingChar("europe", "us", 1);
    MissingChar("europe", "remote", 2);
  }

  /** A location without `u`, `e`, `p`, `t` or `b` mentions no European country of the list. */
  lemma NotEuropean(location: string)
    requires 'u' !in location && 'e' !in location && 'p' !in location
    requires 't' !in location && 'b' !in location
    ensures !MentionsAny(location, EuCountries)
  {
    MissingChar(location, "uk", 0);
    MissingChar(location, "germany", 1);
    MissingChar(location, "france", 5);
    MissingChar(location, "spain", 1);
    MissingChar(location, "italy", 1);
    MissingChar(location, "netherlands", 1);
    MissingChar(location, "belgium", 0);
    MissingChar(location, "poland", 0);
  }

  /** No European country of the list occurs in "san francisco, ca". */
  lemma SanFranciscoNotEurope()
    ensures !MentionsAny("san francisco, ca", EuCountries)
  {
    SanFranciscoLacksUM();
    SanFranciscoLacksEP();
    SanFranciscoLacksTB();
    NotEuropean("san francisco, ca");
  }

  /** "Europe" fails: the location names no European country. */
  lemma EuropeExample()
    ensures !LocationHolds(Sample.personal, "Europe")
  {
    EuropeWords();
    LowerSampleLocation();
    SanFranciscoNotEurope();
  }

  /** `>=40 hours` passes for 40 hours a week. */
  lemma FortyHoursPasses()
    ensures AvailabilityHolds(Sample.salary, ">=40 hours")
  {
    assert Lower(">=40 hours") == "" + ">=" + NatToString(40) + " hour" + "s";
    AvailabilityRule(Sample.salary, ">=40 hours", "", ">=", 40, "s");
  }

  /** `>=50 hours` fails for 40 hours a week. */
  lemma FiftyHoursFails()
    ensures !AvailabilityHolds(Sample.salary, ">=50 hours")
  {
    assert Lower(">=50 hours") == "" + ">=" + NatToString(50) + " hour" + "s";
    AvailabilityRule(Sample.salary, ">=50 hours", "", ">=", 50, "s");
  }

  lemma FullTimeWords()
    ensures Lower("full-time") == "full-time"
    ensures forall c | c in "full-time" :: !IsOperatorChar(c)
  {
  }

  /** `full-time` passes for 40 hours a week, at least 35. */
  lemma FullTimePasses()
    ensures AvailabilityHolds(Sample.salary, "full-time")
  {
    FullTimeWords();
    assert Contains("full-time", "full-time");
    AvailabilityKeywordsOnly(Sample.salary, "full-time");
  }

  /** A word with none of the letters `a`, `e`, `w`, `i` holds none of the keywords. */
  lemma KeywordFree(word: string)
    requires 'a' !in word && 'e' !in word && 'w' !in word && 'i' !in word
    ensures !Contains(word, "has") && !Contains(word, "experience")
    ensures !Contains(word, "with") && !Contains(word, "in")
  {
    MissingChar(word, "has", 1);
    MissingChar(word, "experience", 0);
    MissingChar(word, "with", 0);
    MissingChar(word, "in", 0);
  }

  /** Removing a leading occurrence of the pattern. */
  lemma RemoveLeading(pat: string, rest: string)
    requires pat != []
    ensures RemoveAll(pat + rest, pat) == RemoveAll(rest, pat)
  {
    assert (pat + rest)[|pat|..] == rest;
  }

  /** `has <word>` asks for the word when the word holds no keyword. */
  lemma HasWordRequirement(s: string, word: string)
    requires s == "has " + word
    requires 'a' !in word && 'e' !in word && 'w' !in word && 'i' !in word
    requires word != [] && !IsSpace(word[0]) && !IsSpace(word[|word| - 1])
    ensures StripKeywords(s, TechKeywords) == word
  {
    assert s == "has" + (" " + word);
    RemoveLeading("has", " " + word);
    assert 'a' !in " " + word;
    MissingChar(" " + word, "has", 1);
    StripPadded(" ", word);
    var k := TechKeywords;
    assert Strip(RemoveAll(s, k[0])) == word;
    KeywordFree(word);
    StripPadded("", word);
    assert "" + word == word;
    LaterKeywordsUnchanged(word);
  }

  /** The removals after `has` leave a stripped word without keywords as it is. */
  lemma LaterKeywordsUnchanged(word: string)
    requires !Contains(word, "has") && !Contains(word, "experience") && !Contains(word, "with") && !Contains(word, "in")
    requires Strip(word) == word
    ensures StripKeywords(word, TechKeywords[1..]) == word
  {
    forall w | w in TechKeywords[1..]
      ensures w in TechKeywords
    {
    }
    StripKeywordsUnchanged(word, TechKeywords[1..]);
  }

  /** `has Go` asks for `go`. */
  lemma HasGoRequirement()
    ensures TechRequirement("has Go") == "go"
  {
    assert Lower("has Go") == "has " + "go";
    HasWordRequirement(Lower("has Go"), "go");
  }

  /** `mongodb` contains `go`. */
  lemma MongoHasGo()
    ensures ListsTechnology(StartupInc, "go")
  {
    assert Lower("MongoDB") == "mongodb" && "MongoDB" in StartupInc.technologies;
    assert "mongodb"[3..5] == "go";
    OccursAtContains("mongodb", "go", 3);
  }

  /** "has Go" passes on the strength of MongoDB: the requirement is matched as a substring. */
  lemma HasGoExample()
    ensures TechnologyHolds(Sample.experience, "has Go")
  {
    HasGoRequirement();
    MongoHasGo();
    assert StartupInc in Sample.experience;
  }

  /**
   * A pattern without spaces that is not in `word` does not occur in `word`, a
   * space and all but the last character of the pattern.
   */
  lemma NoOccurrenceAcrossSpace(word: string, pat: string)
    requires pat != [] && ' ' !in pat && !Contains(word, pat)
    ensures !Contains(word + " " + pat[..|pat| - 1], pat)
  {
    var u := word + " " + pat[..|pat| - 1];
    ContainsIff(word, pat);
    forall i | 0 <= i && i + |pat| <= |u|
      ensures !OccursAt(u, pat, i)
    {
      if i + |pat| <= |word| {
        assert u[i..i + |pat|] == word[i..i + |pat|];
        assert !OccursAt(word, pat, i);
      } else {
        assert u[|word|] == ' ' && u[i..i + |pat|][|word| - i] == u[|word|];
      }
    }
    ContainsIff(u, pat);
  }

  /** The removal of `has` leaves `<word> experience` as it is. */
  lemma WordExperienceFirst(s: string, word: string)
    requires s == word + " experience"
    requires 'h' !in word
    requires word != [] && !IsSpace(word[0])
    ensures Strip(RemoveAll(s, "has")) == s
  {
    assert 'h' !in s by {
      assert s[..|word|] == word && s[|word|..] == " experience";
      forall c | c in s ensures c != 'h' {
        var n :| 0 <= n < |s| && s[n] == c;
        if n < |word| { assert word[n] == c; } else { assert " experience"[n - |word|] == c; }
      }
    }
    MissingChar(s, "has", 0);
    assert s == "" + s + "";
    assert s[|s| - 1] == 'e' && s[0] == word[0];
    StripSurrounded("", s, "");
  }

  /** `experience` after a word without `x` is removed, the space before it kept. */
  lemma RemoveExperience(word: string)
    requires 'x' !in word
    ensures RemoveAll(word + " experience", "experience") == word + " "
  {
    var pat := "experience";
    var u := word + " ";
    MissingChar(word, pat, 1);
    NoOccurrenceAcrossSpace(word, pat);
    assert word + " " + pat[..|pat| - 1] == u + pat[..|pat| - 1];
    RemoveLeftmost(u, pat, "");
    assert word + " experience" == u + pat + "";
    assert RemoveAll("", pat) == [];
  }

  /** The removal of `experience` leaves the word, once the space is stripped. */
  lemma WordExperienceSecond(s: string, word: string)
    requires s == word + " experience"
    requires 'x' !in word
    requires word != [] && !IsSpace(word[0]) && !IsSpace(word[|word| - 1])
    ensures Strip(RemoveAll(s, "experience")) == word
  {
    RemoveExperience(word);
    assert word + " " == "" + word + " ";
    StripSurrounded("", word, " ");
  }

  /** A word without `h`, `x`, `w`, `i` holds none of the keywords. */
  lemma NoKeywordLetters(word: string)
    requires 'h' !in word && 'x' !in word && 'w' !in word && 'i' !in word
    ensures !Contains(word, "has") && !Contains(word, "experience")
    ensures !Contains(word, "with") && !Contains(word, "in")
  {
    MissingChar(word, "has", 0);
    MissingChar(word, "experience", 1);
    MissingChar(word, "with", 0);
    MissingChar(word, "in", 0);
  }

  /** A word without `h`, `x`, `w`, `i` passes the removals of `with` and `in` unchanged. */
  lemma WordExperienceRest(word: string)
    requires 'h' !in word && 'x' !in word && 'w' !in word && 'i' !in word
    requires word != [] && !IsSpace(word[0]) && !IsSpace(word[|word| - 1])
    ensures StripKeywords(word, TechKeywords[1..][1..]) == word
  {
    NoKeywordLetters(word);
    StripPadded("", word);
    assert "" + word == word;
    LaterKeywordsUnchanged(word);
  }

  /** `<word> experience` asks for the word when the word holds no keyword. */
  lemma WordExperienceRequirement(s: string, word: string)
    requires s == word + " experience"
    requires 'h' !in word && 'x' !in word && 'w' !in word && 'i' !in word
    requires word != [] && !IsSpace(word[0]) && !IsSpace(word[|word| - 1])
    ensures StripKeywords(s, TechKeywords) == word
  {
    var k := TechKeywords;
    WordExperienceFirst(s, word);
    WordExperienceSecond(s, word);
    WordExperienceRest(word);
    assert k[0] == "has" && k[1..][0] == "experience";
  }

  /** `React experience` asks for `react`: `experience` is removed and the trailing space stripped. */
  lemma ReactRequirement()
    ensures TechRequirement("React experience") == "react"
  {
    assert Lower("React experience") == "react" + " experience";
    WordExperienceRequirement(Lower("React experience"), "react");
  }

  /** `React experience` passes: Tech Corp lists React. */
  lemma ReactExperienceExample()
    ensures TechnologyHolds(Sample.experience, "React experience")
  {
    ReactRequirement();
    TechCorpListsPythonAndReact();
    assert TechCorp in Sample.experience;
  }

  /** `has Python` asks for `python`, which Tech Corp lists. */
  lemma HasPythonExample()
    ensures TechnologyHolds(Sample.experience, "has Python")
  {
    assert Lower("has Python") == "has " + "python";
    HasWordRequirement(Lower("has Python"), "python");
    TechCorpListsPythonAndReact();
    assert TechCorp in Sample.experience;
  }

  // ---------------------------------------------------------------------------
  // A store that fails

  /**
   * When listing the rules raises, `_get_active_rules` catches the error and
   * gives no rules, so `evaluate_applicant` reports "No active shortlisting
   * rules found" rather than an evaluation failure (the test file expects the
   * latter).
   */
  lemma ListingFailureExample(record: Record, now: YearMonth)
    ensures ActiveRules(None) == []
    ensures PassedPoints(record, ActiveRules(None), now) == 0
  {
  }
}

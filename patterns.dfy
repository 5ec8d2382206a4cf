/**
 * The four `re.search` patterns of app/models/shortlist_engine.py, written as
 * scanners over an already lower-cased rule text. Each `...At` function says
 * whether the pattern matches starting at one index (with the same greedy
 * choices and backtracking outcome as Python's engine), and `FirstMatch`
 * is `re.search`: the match at the leftmost index where there is one.
 */
module Patterns {
  import opened Text

  // ---------------------------------------------------------------------------
  // Runs of one character class at the start of a text

  predicate IsOperatorChar(c: char) { c == '<' || c == '>' || c == '=' }

  /** `[a-zA-Z+\s]`. */
  predicate IsTechChar(c: char) { IsAsciiLetter(c) || c == '+' || IsSpace(c) }

  /** `(\d+)` at the start of `t`: the digits and what follows them. */
  function LeadingNumber(t: string): (r: Option<(nat, string)>)
    ensures r.Some? ==> |r.value.1| < |t|
  {
    var d := Span(IsDigit, t);
    if d > 0 then Some((DigitsValue(t[..d]), t[d..])) else None
  }

  /** `\s*word` at the start of `t`. */
  predicate SpacesThen(t: string, word: string) {
    word <= t[Span(IsSpace, t)..]
  }

  // ---------------------------------------------------------------------------
  // re.search: the leftmost index in i..n at which the matcher succeeds

  function FirstMatch<T>(m: nat -> Option<T>, i: nat, n: nat): Option<T>
    decreases n - i
  {
    if i > n then None
    else if m(i).Some? then m(i)
    else FirstMatch(m, i + 1, n)
  }

  /** A search result is the match at some index, and no earlier index matches. */
  lemma {:induction false} FirstMatchIsLeftmost<T>(m: nat -> Option<T>, i: nat, n: nat)
    requires FirstMatch(m, i, n).Some?
    ensures exists k :: i <= k <= n && m(k) == FirstMatch(m, i, n) && forall j :: i <= j < k ==> m(j).None?
    decreases n - i
  {
    if m(i).None? {
      FirstMatchIsLeftmost(m, i + 1, n);
    }
  }

  /** The search fails exactly when the matcher fails at every index. */
  lemma {:induction false} FirstMatchNone<T>(m: nat -> Option<T>, i: nat, n: nat)
    ensures FirstMatch(m, i, n).None? <==> forall k :: i <= k <= n ==> m(k).None?
    decreases n - i
  {
    if i <= n {
      FirstMatchNone(m, i + 1, n);
    }
  }

  /** A matcher that succeeds at `k` and at no earlier index decides the search. */
  lemma {:induction false} FirstMatchAt<T>(m: nat -> Option<T>, i: nat, n: nat, k: nat)
    requires i <= k <= n && m(k).Some?
    requires forall j :: i <= j < k ==> m(j).None?
    ensures FirstMatch(m, i, n) == m(k)
    decreases k - i
  {
    if i < k {
      FirstMatchAt(m, i + 1, n, k);
    }
  }

  // ---------------------------------------------------------------------------
  // >=?(\d+)\s*years?      (experience rules)

  /** The pattern after its leading `>`. */
  function YearsAfterGt(t: string): Option<nat> {
    var u := if t != [] && t[0] == '=' then t[1..] else t;
    match LeadingNumber(u)
    case Some((n, rest)) => if SpacesThen(rest, "year") then Some(n) else None
    case None => None
  }

  function YearsAt(s: string, i: nat): (r: Option<nat>)
    ensures r.Some? ==> i < |s| && s[i] == '>'
  {
    if i < |s| && s[i] == '>' then YearsAfterGt(s[i + 1..]) else None
  }

  function SearchYears(s: string): Option<nat> {
    FirstMatch(k => YearsAt(s, k), 0, |s|)
  }

  // ---------------------------------------------------------------------------
  // ([<>=]+)\s*\$?(\d+)    (compensation rules)

  datatype Comparison = Comparison(op: string, threshold: nat)

  function RateAt(s: string, i: nat): (r: Option<Comparison>)
    ensures r.Some? ==> i < |s| && r.value.op <= s[i..]
    ensures r.Some? ==> r.value.op != [] && forall k :: 0 <= k < |r.value.op| ==> IsOperatorChar(r.value.op[k])
  {
    if i < |s| then
      var t := s[i..];
      var o := Span(IsOperatorChar, t);
      var u := t[o..][Span(IsSpace, t[o..])..];
      var v := if u != [] && u[0] == '$' then u[1..] else u;
      match LeadingNumber(v)
      case Some((n, _)) => if o > 0 then Some(Comparison(t[..o], n)) else None
      case None => None
    else None
  }

  function SearchRate(s: string): Option<Comparison> {
    FirstMatch(k => RateAt(s, k), 0, |s|)
  }

  // ---------------------------------------------------------------------------
  // ([<>=]+)\s*(\d+)\s*hours?   (availability rules)

  function HoursAt(s: string, i: nat): (r: Option<Comparison>)
    ensures r.Some? ==> i < |s| && r.value.op <= s[i..]
    ensures r.Some? ==> r.value.op != [] && forall k :: 0 <= k < |r.value.op| ==> IsOperatorChar(r.value.op[k])
  {
    if i < |s| then
      var t := s[i..];
      var o := Span(IsOperatorChar, t);
      var u := t[o..][Span(IsSpace, t[o..])..];
      match LeadingNumber(u)
      case Some((n, rest)) => if o > 0 && SpacesThen(rest, "hour") then Some(Comparison(t[..o], n)) else None
      case None => None
    else None
  }

  function SearchHours(s: string): Option<Comparison> {
    FirstMatch(k => HoursAt(s, k), 0, |s|)
  }

  // ---------------------------------------------------------------------------
  // in\s+([a-zA-Z+\s]+)     (the technology of an experience rule)

  /**
   * `\s+` first takes the whole run of whitespace; when no class character
   * follows it, it gives one whitespace character back, and that character
   * alone forms the group.
   */
  function TechInAt(s: string, i: nat): (r: Option<string>)
    ensures r.Some? ==> i + 2 <= |s| && "in" <= s[i..]
    ensures r.Some? ==> r.value != [] && forall k :: 0 <= k < |r.value| ==> IsTechChar(r.value[k])
  {
    if i + 2 <= |s| && s[i..i + 2] == "in" then
      var t := s[i + 2..];
      var w := Span(IsSpace, t);
      var g := Span(IsTechChar, t[w..]);
      if w == 0 then None
      else if g > 0 then Some(t[w..][..g])
      else if w >= 2 then Some([t[w - 1]])
      else None
    else None
  }

  function SearchTechIn(s: string): Option<string> {
    FirstMatch(k => TechInAt(s, k), 0, |s|)
  }

  // ---------------------------------------------------------------------------
  // Facts about the patterns

  /** A text without any of `<`, `>`, `=` (for instance one written with `≤`/`≥` only) has no comparison. */
  lemma NoOperatorNoComparison(s: string)
    requires forall c | c in s :: !IsOperatorChar(c)
    ensures SearchRate(s) == None && SearchHours(s) == None
  {
    FirstMatchNone(k => RateAt(s, k), 0, |s|);
    FirstMatchNone(k => HoursAt(s, k), 0, |s|);
  }

  /** `>N years` and `>=N years` extract the same N: the `=` is optional and not recorded. */
  lemma StrictAndInclusiveYearsAgree(t: string)
    requires t == [] || t[0] != '='
    ensures YearsAt(">" + t, 0) == YearsAt(">=" + t, 0)
  {
    assert (">" + t)[1..] == t;
    assert (">=" + t)[1..] == "=" + t;
    assert ("=" + t)[1..] == t;
  }

  /** `str(n)` followed by a non-digit reads back as the number `n`. */
  lemma LeadingNumberOf(n: nat, rest: string)
    requires rest == [] || !IsDigit(rest[0])
    ensures LeadingNumber(NatToString(n) + rest) == Some((n, rest))
  {
    var d := NatToString(n);
    SpanOfRun(IsDigit, d, rest);
    assert (d + rest)[..|d|] == d && (d + rest)[|d|..] == rest;
    NatToStringRoundTrip(n);
  }

  /** One space, then the word: `\s*word` matches. */
  lemma SpaceThenWord(word: string, tail: string)
    requires word != [] && !IsSpace(word[0])
    ensures SpacesThen(" " + word + tail, word)
  {
    var t := " " + word + tail;
    assert t == " " + (word + tail);
    SpanOfRun(IsSpace, " ", word + tail);
    assert t[1..] == word + tail;
  }

  /** `(\d+)\s*word` on `str(n)`, one space and the word. */
  lemma NumberThenWord(n: nat, word: string, tail: string)
    requires word != [] && !IsSpace(word[0])
    ensures LeadingNumber(NatToString(n) + (" " + word + tail)) == Some((n, " " + word + tail))
    ensures SpacesThen(" " + word + tail, word)
  {
    LeadingNumberOf(n, " " + word + tail);
    SpaceThenWord(word, tail);
  }

  /** The part of the experience pattern after `>`, on `=N year...`. */
  lemma YearsAfterGtOf(n: nat, tail: string)
    ensures YearsAfterGt("=" + (NatToString(n) + (" " + "year" + tail))) == Some(n)
  {
    var u := NatToString(n) + (" " + "year" + tail);
    assert ("=" + u)[1..] == u;
    NumberThenWord(n, "year", tail);
  }

  /** Where the text has no `>`, the experience pattern does not start. */
  lemma NoYearsBefore(p: string, q: string)
    requires '>' !in p
    ensures forall j | 0 <= j < |p| :: YearsAt(p + q, j).None?
  {
    forall j | 0 <= j < |p|
      ensures YearsAt(p + q, j).None?
    {
      assert (p + q)[j] == p[j] && p[j] in p;
    }
  }

  /** The experience pattern at the `>` of `>=N year...`. */
  lemma YearsAtOf(p: string, n: nat, tail: string)
    ensures YearsAt(p + (">" + ("=" + (NatToString(n) + (" " + "year" + tail)))), |p|) == Some(n)
  {
    var u := "=" + (NatToString(n) + (" " + "year" + tail));
    var s := p + (">" + u);
    assert s[|p|] == '>' && s[|p| + 1..] == u;
    YearsAfterGtOf(n, tail);
  }

  /** A rule written `... >=N year...` asks for N years, whatever precedes it without a `>`. */
  lemma YearsRuleFound(p: string, n: nat, tail: string)
    requires '>' !in p
    ensures SearchYears(p + ">=" + NatToString(n) + " year" + tail) == Some(n)
  {
    var q := ">" + ("=" + (NatToString(n) + (" " + "year" + tail)));
    var s := p + ">=" + NatToString(n) + " year" + tail;
    assert s == p + q;
    YearsAtOf(p, n, tail);
    NoYearsBefore(p, q);
    FirstMatchAt(k => YearsAt(s, k), 0, |s|, |p|);
  }

  /** Where the text has no operator character, neither comparison pattern starts. */
  lemma NoComparisonBefore(p: string, q: string)
    requires forall k :: 0 <= k < |p| ==> !IsOperatorChar(p[k])
    ensures forall j | 0 <= j < |p| :: RateAt(p + q, j).None? && HoursAt(p + q, j).None?
  {
    forall j | 0 <= j < |p|
      ensures RateAt(p + q, j).None? && HoursAt(p + q, j).None?
    {
      assert (p + q)[j..][0] == p[j];
    }
  }

  /** Both comparison patterns look only at the text from their starting index on. */
  lemma RateAtShift(s: string, p: string, q: string)
    requires s == p + q
    ensures RateAt(s, |p|) == RateAt(q, 0) && HoursAt(s, |p|) == HoursAt(q, 0)
  {
    assert s[|p|..] == q && q[0..] == q;
  }

  /** The number of the compensation pattern, after the operator: `$N...` or `N...`. */
  lemma RateNumberOf(sign: string, n: nat, tail: string)
    requires sign == "$" || sign == ""
    requires tail == [] || !IsDigit(tail[0])
    ensures var u := sign + (NatToString(n) + tail);
      Span(IsSpace, u) == 0
      && LeadingNumber(if u != [] && u[0] == '$' then u[1..] else u) == Some((n, tail))
  {
    var v := NatToString(n) + tail;
    var u := sign + v;
    assert IsDigit(v[0]);
    if sign == "$" {
      assert u[0] == '$' && u[1..] == v;
    } else {
      assert u == v;
    }
    LeadingNumberOf(n, tail);
  }

  /** The compensation pattern at the start of `<op>$N...` or `<op>N...`. */
  lemma RateAtOf(op: string, sign: string, n: nat, tail: string)
    requires op != [] && forall k :: 0 <= k < |op| ==> IsOperatorChar(op[k])
    requires sign == "$" || sign == ""
    requires tail == [] || !IsDigit(tail[0])
    ensures RateAt(op + (sign + (NatToString(n) + tail)), 0) == Some(Comparison(op, n))
  {
    var u := sign + (NatToString(n) + tail);
    var t := op + u;
    assert t[0..] == t;
    RateNumberOf(sign, n, tail);
    assert u[0] == '$' || IsDigit(u[0]);
    SpanOfRun(IsOperatorChar, op, u);
    assert t[..|op|] == op && t[|op|..] == u && u[0..] == u;
  }

  /** A rule written `... <op>$N ...` or `... <op>N ...` compares against N with exactly `op`. */
  lemma RateRuleFound(p: string, op: string, sign: string, n: nat, tail: string)
    requires forall k :: 0 <= k < |p| ==> !IsOperatorChar(p[k])
    requires op != [] && forall k :: 0 <= k < |op| ==> IsOperatorChar(op[k])
    requires sign == "$" || sign == ""
    requires tail == [] || !IsDigit(tail[0])
    ensures SearchRate(p + op + sign + NatToString(n) + tail) == Some(Comparison(op, n))
  {
    var q := op + (sign + (NatToString(n) + tail));
    var s := p + op + sign + NatToString(n) + tail;
    assert s == p + q && s[|p|..] == q;
    RateAtOf(op, sign, n, tail);
    RateAtShift(s, p, q);
    NoComparisonBefore(p, q);
    FirstMatchAt(k => RateAt(s, k), 0, |s|, |p|);
  }

  /** The availability pattern at the start of `<op>N hour...`. */
  lemma HoursAtOf(op: string, n: nat, tail: string)
    requires op != [] && forall k :: 0 <= k < |op| ==> IsOperatorChar(op[k])
    ensures HoursAt(op + (NatToString(n) + (" " + "hour" + tail)), 0) == Some(Comparison(op, n))
  {
    var u := NatToString(n) + (" " + "hour" + tail);
    var t := op + u;
    assert t[0..] == t;
    assert IsDigit(NatToString(n)[0]) && u[0] == NatToString(n)[0];
    SpanOfRun(IsOperatorChar, op, u);
    assert t[..|op|] == op && t[|op|..] == u && u[0..] == u;
    assert Span(IsSpace, u) == 0;
    NumberThenWord(n, "hour", tail);
  }

  /** A rule written `... <op>N hour...` compares the hours against N with exactly `op`. */
  lemma HoursRuleFound(p: string, op: string, n: nat, tail: string)
    requires forall k :: 0 <= k < |p| ==> !IsOperatorChar(p[k])
    requires op != [] && forall k :: 0 <= k < |op| ==> IsOperatorChar(op[k])
    ensures SearchHours(p + op + NatToString(n) + " hour" + tail) == Some(Comparison(op, n))
  {
    var q := op + (NatToString(n) + (" " + "hour" + tail));
    var s := p + op + NatToString(n) + " hour" + tail;
    assert s == p + q && s[|p|..] == q;
    HoursAtOf(op, n, tail);
    RateAtShift(s, p, q);
    NoComparisonBefore(p, q);
    FirstMatchAt(k => HoursAt(s, k), 0, |s|, |p|);
  }

  /** The technology pattern at the start of `in <group>...`, the group ending at a non-technology character. */
  lemma TechInAtOf(group: string, tail: string)
    requires group != [] && !IsSpace(group[0]) && forall c | c in group :: IsTechChar(c)
    requires tail == [] || !IsTechChar(tail[0])
    ensures TechInAt("in " + group + tail, 0) == Some(group)
  {
    var s := "in " + group + tail;
    var t := " " + group + tail;
    assert s == "in" + t && s[0..2] == "in" && s[2..] == t;
    assert t == " " + (group + tail);
    assert (group + tail)[0] == group[0];
    SpanOfRun(IsSpace, " ", group + tail);
    assert t[1..] == group + tail;
    SpanOfRun(IsTechChar, group, tail);
    assert (group + tail)[..|group|] == group;
  }

  /** A rule `... in <group>...` with no `i` before it names that group, from its first non-space character on. */
  lemma TechInFound(p: string, group: string, tail: string)
    requires 'i' !in p
    requires group != [] && !IsSpace(group[0]) && forall c | c in group :: IsTechChar(c)
    requires tail == [] || !IsTechChar(tail[0])
    ensures SearchTechIn(p + "in " + group + tail) == Some(group)
  {
    var u := "in " + group + tail;
    var s := p + "in " + group + tail;
    assert s == p + u && s[|p|..] == u;
    TechInAtOf(group, tail);
    assert TechInAt(s, |p|) == TechInAt(u, 0);
    forall j | 0 <= j < |p|
      ensures TechInAt(s, j).None?
    {
      assert s[j] == p[j];
    }
    FirstMatchAt(k => TechInAt(s, k), 0, |s|, |p|);
  }

  /** Without the letters `in` next to each other there is no technology clause. */
  lemma NoInNoTechnology(s: string)
    requires !Contains(s, "in")
    ensures SearchTechIn(s) == None
  {
    forall k | 0 <= k <= |s|
      ensures TechInAt(s, k).None?
    {
      if TechInAt(s, k).Some? {
        OccursAtContains(s, "in", k);
      }
    }
    FirstMatchNone(k => TechInAt(s, k), 0, |s|);
  }
}

/**
 * String helpers with Python's meaning: `str.lower` (ASCII letters),
 * `sub in s`, `str.strip`, `str.replace(sub, "")`, `str(int)`, string ordering
 * and `"\n".join`.
 */
module Text {

  datatype Option<+T> = None | Some(value: T) {
    /** `dict.get(key, default)` when the key may be missing. */
    function GetOr(default: T): T {
      match this
      case Some(v) => v
      case None => default
    }
  }

  // ---------------------------------------------------------------------------
  // Characters

  predicate IsAsciiUpper(c: char) { 'A' <= c <= 'Z' }

  predicate IsAsciiLetter(c: char) { 'a' <= c <= 'z' || 'A' <= c <= 'Z' }

  predicate IsDigit(c: char) { '0' <= c <= '9' }

  /** Python's `str.isspace`, which is also what `\s` and `strip()` use. */
  predicate IsSpace(c: char) {
    || '\t' <= c <= '\r'
    || '\U{1C}' <= c <= ' '
    || c == '\U{85}' || c == '\U{A0}' || c == '\U{1680}'
    || '\U{2000}' <= c <= '\U{200A}'
    || c == '\U{2028}' || c == '\U{2029}' || c == '\U{202F}' || c == '\U{205F}'
    || c == '\U{3000}'
  }

  function LowerChar(c: char): (d: char)
    ensures IsAsciiUpper(c) ==> d as int == c as int + 32
    ensures !IsAsciiUpper(c) ==> d == c
    ensures !IsAsciiUpper(d)
  {
    if IsAsciiUpper(c) then (c as int + 32) as char else c
  }

  /** `s.lower()`, restricted to ASCII letters. */
  function Lower(s: string): (r: string)
    ensures |r| == |s|
    ensures forall i :: 0 <= i < |s| ==> r[i] == LowerChar(s[i])
  {
    seq(|s|, i requires 0 <= i < |s| => LowerChar(s[i]))
  }

  lemma LowerIdempotent(s: string)
    ensures Lower(Lower(s)) == Lower(s)
  {
  }

  /** No ASCII capital is left after lower-casing, and a text without capitals is its own lower case. */
  lemma LowerLeavesNoCapitals(s: string)
    ensures forall i :: 0 <= i < |Lower(s)| ==> !IsAsciiUpper(Lower(s)[i])
    ensures (forall i :: 0 <= i < |s| ==> !IsAsciiUpper(s[i])) ==> Lower(s) == s
  {
  }

  // ---------------------------------------------------------------------------
  // Substrings

  /** `t in s`: `t` occurs in `s` as a contiguous substring. */
  predicate Contains(s: string, t: string)
    decreases |s|
  {
    t <= s || (|s| > 0 && Contains(s[1..], t))
  }

  /** `t` occurs in `s` starting at index `i`. */
  predicate OccursAt(s: string, t: string, i: int) {
    0 <= i && i + |t| <= |s| && s[i..i + |t|] == t
  }

  /** An occurrence at any index makes `Contains` hold. */
  lemma {:induction false} OccursAtContains(s: string, t: string, i: int)
    requires OccursAt(s, t, i)
    ensures Contains(s, t)
    decreases i
  {
    if i == 0 {
      assert s[..|t|] == t;
    } else {
      assert s[1..][i - 1..i - 1 + |t|] == s[i..i + |t|];
      OccursAtContains(s[1..], t, i - 1);
    }
  }

  /** `Contains` agrees with the index-based definition of a substring. */
  lemma {:induction false} ContainsIff(s: string, t: string)
    ensures Contains(s, t) <==> exists i :: OccursAt(s, t, i)
    decreases |s|
  {
    if t <= s {
      assert OccursAt(s, t, 0);
    } else if |s| > 0 && Contains(s[1..], t) {
      ContainsIff(s[1..], t);
      var i :| OccursAt(s[1..], t, i);
      assert s[i + 1..i + 1 + |t|] == s[1..][i..i + |t|];
      assert OccursAt(s, t, i + 1);
    }
    forall i | OccursAt(s, t, i)
      ensures Contains(s, t)
    {
      OccursAtContains(s, t, i);
    }
  }

  /** The empty string occurs everywhere, as in Python (`"" in s`). */
  lemma ContainsEmpty(s: string)
    ensures Contains(s, "")
  {
  }

  /** A text lacking one of the characters of `t` does not contain `t`. */
  lemma MissingChar(s: string, t: string, j: nat)
    requires j < |t| && t[j] !in s
    ensures !Contains(s, t)
  {
    forall i | 0 <= i && i + |t| <= |s|
      ensures !OccursAt(s, t, i)
    {
      assert s[i..i + |t|][j] == s[i + j] && s[i + j] in s;
    }
    ContainsIff(s, t);
  }

  /** A substring of a substring is a substring. */
  lemma {:induction false} ContainsTransitive(s: string, t: string, u: string)
    requires Contains(s, t) && Contains(t, u)
    ensures Contains(s, u)
  {
    ContainsIff(s, t);
    ContainsIff(t, u);
    var i :| OccursAt(s, t, i);
    var j :| OccursAt(t, u, j);
    forall k | 0 <= k < |u|
      ensures s[i + j + k] == u[k]
    {
      assert u[k] == t[j..j + |u|][k] == t[j + k];
      assert t[j + k] == s[i..i + |t|][j + k];
    }
    assert s[i + j..i + j + |u|] == u;
    assert OccursAt(s, u, i + j);
    ContainsIff(s, u);
  }

  // ---------------------------------------------------------------------------
  // strip() and replace()

  /** Length of the longest prefix of `t` whose characters all satisfy `p`. */
  function Span(p: char -> bool, t: string): (n: nat)
    ensures n <= |t|
    ensures forall k :: 0 <= k < n ==> p(t[k])
    ensures n < |t| ==> !p(t[n])
  {
    if t != [] && p(t[0]) then 1 + Span(p, t[1..]) else 0
  }

  /** A run of `p` characters followed by one that is not: the span is the run. */
  lemma {:induction false} SpanOfRun(p: char -> bool, run: string, t: string)
    requires forall c | c in run :: p(c)
    requires t == [] || !p(t[0])
    ensures Span(p, run + t) == |run|
  {
    if run != [] {
      assert (run + t)[1..] == run[1..] + t;
      SpanOfRun(p, run[1..], t);
    } else {
      assert run + t == t;
    }
  }

  /** Length of the run of whitespace at the end of `s`. */
  function TrailingSpace(s: string): (n: nat)
    ensures n <= |s|
    ensures forall i :: |s| - n <= i < |s| ==> IsSpace(s[i])
    ensures n < |s| ==> !IsSpace(s[|s| - n - 1])
  {
    if s != [] && IsSpace(s[|s| - 1]) then 1 + TrailingSpace(s[..|s| - 1]) else 0
  }

  /** `s.strip()`: drop leading and trailing whitespace. */
  function Strip(s: string): (r: string)
    ensures r == [] || (!IsSpace(r[0]) && !IsSpace(r[|r| - 1]))
    ensures Contains(s, r)
  {
    var lead := Span(IsSpace, s);
    var rest := s[lead..];
    var r := rest[..|rest| - TrailingSpace(rest)];
    assert OccursAt(s, r, lead);
    ContainsIff(s, r);
    r
  }

  /** Leading whitespace before a word with no whitespace at its ends is all `strip` removes. */
  lemma StripPadded(pad: string, word: string)
    requires forall c | c in pad :: IsSpace(c)
    requires word != [] && !IsSpace(word[0]) && !IsSpace(word[|word| - 1])
    ensures Strip(pad + word) == word
  {
    SpanOfRun(IsSpace, pad, word);
    assert (pad + word)[|pad|..] == word;
  }

  /** A run of `p` characters after one that is not: the trailing run is the whole run. */
  lemma {:induction false} TrailingOfRun(w: string, run: string)
    requires forall c | c in run :: IsSpace(c)
    requires w == [] || !IsSpace(w[|w| - 1])
    ensures TrailingSpace(w + run) == |run|
    decreases |run|
  {
    if run == [] {
      assert w + run == w;
    } else {
      var init := run[..|run| - 1];
      assert (w + run)[..|w + run| - 1] == w + init;
      assert run[|run| - 1] in run;
      TrailingOfRun(w, init);
    }
  }

  /** `strip()` removes whitespace on both sides of a word and nothing else. */
  lemma StripSurrounded(lead: string, word: string, trail: string)
    requires forall c | c in lead :: IsSpace(c)
    requires forall c | c in trail :: IsSpace(c)
    requires word != [] && !IsSpace(word[0]) && !IsSpace(word[|word| - 1])
    ensures Strip(lead + word + trail) == word
  {
    var s := lead + word + trail;
    assert s == lead + (word + trail);
    SpanOfRun(IsSpace, lead, word + trail);
    assert s[|lead|..] == word + trail;
    TrailingOfRun(word, trail);
    assert (word + trail)[..|word|] == word;
  }

  /** A text of whitespace only strips to the empty string. */
  lemma StripBlank(s: string)
    requires forall c | c in s :: IsSpace(c)
    ensures Strip(s) == []
  {
    SpanOfRun(IsSpace, s, []);
    assert s + [] == s;
  }

  /** `s.replace(pat, "")`: every non-overlapping occurrence of `pat`, scanned from the left, removed. */
  function RemoveAll(s: string, pat: string): (r: string)
    requires pat != []
    ensures |r| <= |s|
    ensures !Contains(s, pat) ==> r == s
    decreases |s|
  {
    if s == [] then []
    else if pat <= s then RemoveAll(s[|pat|..], pat)
    else [s[0]] + RemoveAll(s[1..], pat)
  }

  /**
   * The leftmost occurrence of `pat` is removed whole and the scan goes on after it:
   * when `pat` does not occur earlier (not in the text before the last character of
   * this occurrence), the text before it is kept as it is.
   */
  lemma {:induction false} RemoveLeftmost(u: string, pat: string, v: string)
    requires pat != []
    requires !Contains(u + pat[..|pat| - 1], pat)
    ensures RemoveAll(u + pat + v, pat) == u + RemoveAll(v, pat)
    decreases |u|
  {
    var s := u + pat + v;
    var pp := pat[..|pat| - 1];
    if u == [] {
      assert s == pat + v && pat <= s;
      assert s[|pat|..] == v;
    } else {
      assert s == (u + pp) + [pat[|pat| - 1]] + v;
      ContainsIff(u + pp, pat);
      assert (u + pp)[..|pat|] == s[..|pat|];
      assert pat <= s ==> OccursAt(u + pp, pat, 0);
      assert s[1..] == u[1..] + pat + v;
      assert OccursAt(u + pp, u[1..] + pp, 1);
      OccursAtContains(u + pp, u[1..] + pp, 1);
      if Contains(u[1..] + pp, pat) {
        ContainsTransitive(u + pp, u[1..] + pp, pat);
      }
      RemoveLeftmost(u[1..], pat, v);
      assert [u[0]] + u[1..] == u;
    }
  }

  // ---------------------------------------------------------------------------
  // Numbers

  function DigitValue(c: char): (d: nat)
    requires IsDigit(c)
    ensures d < 10
  {
    c as int - '0' as int
  }

  predicate AllDigits(s: string) {
    forall i :: 0 <= i < |s| ==> IsDigit(s[i])
  }

  /** `int(s)` for a string of ASCII digits. */
  function DigitsValue(s: string): nat
    requires AllDigits(s)
  {
    if s == [] then 0 else DigitsValue(s[..|s| - 1]) * 10 + DigitValue(s[|s| - 1])
  }

  function DigitChar(d: nat): (c: char)
    requires d < 10
    ensures IsDigit(c) && DigitValue(c) == d
  {
    ('0' as int + d) as char
  }

  /** `str(n)` for a natural number. */
  function NatToString(n: nat): (s: string)
    ensures s != [] && AllDigits(s)
    ensures n != 0 ==> s[0] != '0'
  {
    if n < 10 then [DigitChar(n)] else NatToString(n / 10) + [DigitChar(n % 10)]
  }

  /** `str(n)` for any integer. */
  function IntToString(n: int): string {
    if n < 0 then "-" + NatToString(-n) else NatToString(n)
  }

  /** `int(str(n)) == n`. */
  lemma {:induction false} NatToStringRoundTrip(n: nat)
    ensures DigitsValue(NatToString(n)) == n
  {
    var s := NatToString(n);
    if n >= 10 {
      NatToStringRoundTrip(n / 10);
      assert s[..|s| - 1] == NatToString(n / 10);
    }
  }

  // ---------------------------------------------------------------------------
  // Ordering of strings (Python compares strings code point by code point)

  predicate LexLe(a: string, b: string)
    decreases |a|
  {
    if a == [] then true
    else if b == [] then false
    else if a[0] != b[0] then a[0] < b[0]
    else LexLe(a[1..], b[1..])
  }

  lemma {:induction false} LexLeReflexive(a: string)
    ensures LexLe(a, a)
    decreases |a|
  {
    if a != [] { LexLeReflexive(a[1..]); }
  }

  lemma {:induction false} LexLeTotal(a: string, b: string)
    ensures LexLe(a, b) || LexLe(b, a)
    decreases |a|
  {
    if a != [] && b != [] && a[0] == b[0] { LexLeTotal(a[1..], b[1..]); }
  }

  lemma {:induction false} LexLeAntisymmetric(a: string, b: string)
    requires LexLe(a, b) && LexLe(b, a)
    ensures a == b
    decreases |a|
  {
    if a != [] && b != [] {
      LexLeAntisymmetric(a[1..], b[1..]);
      assert a == [a[0]] + a[1..] && b == [b[0]] + b[1..];
    }
  }

  lemma {:induction false} LexLeTransitive(a: string, b: string, c: string)
    requires LexLe(a, b) && LexLe(b, c)
    ensures LexLe(a, c)
    decreases |a|
  {
    if a != [] && b != [] && c != [] && a[0] == b[0] && b[0] == c[0] {
      LexLeTransitive(a[1..], b[1..], c[1..]);
    }
  }

  // ---------------------------------------------------------------------------
  // Joining

  /** `sep.join(parts)`. */
  function Join(parts: seq<string>, sep: string): string {
    if parts == [] then ""
    else if |parts| == 1 then parts[0]
    else parts[0] + sep + Join(parts[1..], sep)
  }

  /** The joined text ends with the last part. */
  lemma {:induction false} JoinEndsWithLast(parts: seq<string>, sep: string)
    requires parts != []
    ensures var j := Join(parts, sep); var last := parts[|parts| - 1];
      |last| <= |j| && j[|j| - |last|..] == last
  {
    if |parts| > 1 {
      JoinEndsWithLast(parts[1..], sep);
      var rest := Join(parts[1..], sep);
      var last := parts[|parts| - 1];
      assert parts[1..][|parts[1..]| - 1] == last;
      var j := parts[0] + sep + rest;
      assert j[|j| - |last|..] == rest[|rest| - |last|..];
    }
  }
}

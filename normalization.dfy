/**
 * `JSONCompressor._normalize_data` (app/models/compression.py:73-117): the
 * Airtable-shaped bundle becomes a `Record`, every entry's technologies sorted
 * ascending, entries sorted by `end` descending, missing fields defaulted.
 */
module Normalization {
  import opened Text
  import opened Applicant

  // ---------------------------------------------------------------------------
  // The raw bundle: every Airtable field may be missing

  datatype RawPersonal = RawPersonal(
    fullName: Option<string>,   // "Full Name"
    email: Option<string>,      // "Email"
    location: Option<string>,   // "Location"
    linkedin: Option<string>)   // "LinkedIn"

  datatype RawEntry = RawEntry(
    company: Option<string>,             // "Company"
    title: Option<string>,               // "Title"
    start: Option<string>,               // "Start"
    end: Option<string>,                 // "End"
    technologies: Option<seq<string>>)   // "Technologies"

  datatype RawSalary = RawSalary(
    preferredRate: Option<int>,   // "Preferred Rate"
    minRate: Option<int>,         // "Min Rate"
    currency: Option<string>,     // "Currency"
    availability: Option<int>)    // "Availability"

  /** The bundle handed to `compress_applicant_data`, with the caller's `current_hash`. */
  datatype RawBundle = RawBundle(
    personal: RawPersonal,
    experience: seq<RawEntry>,
    salary: RawSalary,
    currentHash: Option<string>)

  // ---------------------------------------------------------------------------
  // sorted(technologies): ascending string order

  predicate SortedAsc(s: seq<string>) {
    forall i, j :: 0 <= i < j < |s| ==> LexLe(s[i], s[j])
  }

  function InsertString(x: string, s: seq<string>): seq<string> {
    if s == [] then [x]
    else if LexLe(x, s[0]) then [x] + s
    else [s[0]] + InsertString(x, s[1..])
  }

  function SortStrings(s: seq<string>): seq<string> {
    if s == [] then [] else InsertString(s[0], SortStrings(s[1..]))
  }

  lemma {:induction false} InsertStringPermutes(x: string, s: seq<string>)
    ensures multiset(InsertString(x, s)) == multiset(s) + multiset{x}
  {
    if s != [] && !LexLe(x, s[0]) {
      InsertStringPermutes(x, s[1..]);
      assert s == [s[0]] + s[1..];
    }
  }

  /** An element below every element of an ascending sequence may go in front of it. */
  lemma SortedAscCons(y: string, t: seq<string>)
    requires SortedAsc(t) && forall z | z in t :: LexLe(y, z)
    ensures SortedAsc([y] + t)
  {
    forall i, j | 0 <= i < j < |[y] + t|
      ensures LexLe(([y] + t)[i], ([y] + t)[j])
    {
      if i == 0 {
        assert ([y] + t)[j] == t[j - 1] && t[j - 1] in t;
      } else {
        assert ([y] + t)[i] == t[i - 1] && ([y] + t)[j] == t[j - 1];
      }
    }
  }

  lemma {:induction false} InsertStringSorted(x: string, s: seq<string>)
    requires SortedAsc(s)
    ensures SortedAsc(InsertString(x, s))
  {
    if s != [] && !LexLe(x, s[0]) {
      var t := InsertString(x, s[1..]);
      InsertStringSorted(x, s[1..]);
      InsertStringPermutes(x, s[1..]);
      LexLeTotal(x, s[0]);
      forall z | z in t
        ensures LexLe(s[0], z)
      {
        assert z in multiset(s[1..]) + multiset{x};
        if z != x {
          var k :| 0 <= k < |s[1..]| && s[1..][k] == z;
          assert s[k + 1] == z;
        }
      }
      SortedAscCons(s[0], t);
    } else if s != [] {
      forall z | z in s
        ensures LexLe(x, z)
      {
        var j :| 0 <= j < |s| && s[j] == z;
        if j > 0 {
          assert LexLe(s[0], s[j]);
          LexLeTransitive(x, s[0], s[j]);
        }
      }
      SortedAscCons(x, s);
    }
  }

  /** Insertion into an ascending sequence adds the element and keeps the order. */
  lemma InsertStringCorrect(x: string, s: seq<string>)
    requires SortedAsc(s)
    ensures multiset(InsertString(x, s)) == multiset(s) + multiset{x}
    ensures SortedAsc(InsertString(x, s))
  {
    InsertStringPermutes(x, s);
    InsertStringSorted(x, s);
  }

  /** `sorted` returns its argument's elements in ascending order. */
  lemma {:induction false} SortStringsCorrect(s: seq<string>)
    ensures multiset(SortStrings(s)) == multiset(s)
    ensures SortedAsc(SortStrings(s))
  {
    if s != [] {
      SortStringsCorrect(s[1..]);
      InsertStringCorrect(s[0], SortStrings(s[1..]));
      assert s == [s[0]] + s[1..];
    }
  }

  /** The head of an ascending sequence is its least element. */
  lemma SortedAscHead(a: seq<string>, y: string)
    requires SortedAsc(a) && y in multiset(a)
    ensures LexLe(a[0], y)
  {
    var i :| 0 <= i < |a| && a[i] == y;
    if i == 0 { LexLeReflexive(y); }
  }

  lemma TailMultiset<T>(a: seq<T>)
    requires a != []
    ensures multiset(a[1..]) == multiset(a) - multiset{a[0]}
  {
    assert a == [a[0]] + a[1..];
  }

  lemma SortedAscTail(a: seq<string>)
    requires a != [] && SortedAsc(a)
    ensures SortedAsc(a[1..])
  {
  }

  /** Two ascending sequences with the same elements are the same sequence. */
  lemma {:induction false} SortedAscUnique(a: seq<string>, b: seq<string>)
    requires SortedAsc(a) && SortedAsc(b) && multiset(a) == multiset(b)
    ensures a == b
  {
    if a != [] {
      SortedAscSameHead(a, b);
      TailMultiset(a);
      TailMultiset(b);
      SortedAscTail(a);
      SortedAscTail(b);
      SortedAscUnique(a[1..], b[1..]);
      assert a == [a[0]] + a[1..] && b == [b[0]] + b[1..];
    }
  }

  /** Two ascending sequences with the same elements start with the same element. */
  lemma SortedAscSameHead(a: seq<string>, b: seq<string>)
    requires a != [] && SortedAsc(a) && SortedAsc(b) && multiset(a) == multiset(b)
    ensures b != [] && a[0] == b[0]
  {
    assert a[0] in multiset(a);
    assert b != [];
    assert b[0] in multiset(b);
    SortedAscHead(a, b[0]);
    SortedAscHead(b, a[0]);
    LexLeAntisymmetric(a[0], b[0]);
  }

  /** The technologies list sorts to the same list whatever order it came in. */
  lemma SortStringsIgnoresOrder(a: seq<string>, b: seq<string>)
    requires multiset(a) == multiset(b)
    ensures SortStrings(a) == SortStrings(b)
  {
    SortStringsCorrect(a);
    SortStringsCorrect(b);
    SortedAscUnique(SortStrings(a), SortStrings(b));
  }

  // ---------------------------------------------------------------------------
  // list.sort(key=end, reverse=True): stable, descending by `end`

  predicate SortedByEndDesc(s: seq<Entry>) {
    forall i, j :: 0 <= i < j < |s| ==> LexLe(s[j].end, s[i].end)
  }

  /** The entries of `s` whose `end` is `k`, in their order in `s`. */
  function WithEnd(s: seq<Entry>, k: string): seq<Entry> {
    if s == [] then []
    else (if s[0].end == k then [s[0]] else []) + WithEnd(s[1..], k)
  }

  /** Insert `x` in front of the first entry whose `end` is not later than its own. */
  function InsertByEnd(x: Entry, s: seq<Entry>): seq<Entry> {
    if s == [] then [x]
    else if LexLe(s[0].end, x.end) then [x] + s
    else [s[0]] + InsertByEnd(x, s[1..])
  }

  function SortByEndDesc(s: seq<Entry>): seq<Entry> {
    if s == [] then [] else InsertByEnd(s[0], SortByEndDesc(s[1..]))
  }

  lemma {:induction false} WithEndAppend(a: seq<Entry>, b: seq<Entry>, k: string)
    ensures WithEnd(a + b, k) == WithEnd(a, k) + WithEnd(b, k)
  {
    if a == [] {
      assert a + b == b;
    } else {
      var head := if a[0].end == k then [a[0]] else [];
      assert a + b != [];
      assert (a + b)[0] == a[0];
      assert (a + b)[1..] == a[1..] + b;
      WithEndAppend(a[1..], b, k);
      assert WithEnd(a + b, k) == head + (WithEnd(a[1..], k) + WithEnd(b, k));
      assert WithEnd(a, k) == head + WithEnd(a[1..], k);
    }
  }

  lemma {:induction false} InsertByEndPermutes(x: Entry, s: seq<Entry>)
    ensures multiset(InsertByEnd(x, s)) == multiset(s) + multiset{x}
  {
    if s != [] && !LexLe(s[0].end, x.end) {
      InsertByEndPermutes(x, s[1..]);
      assert s == [s[0]] + s[1..];
    }
  }

  /** An entry ending no earlier than every entry of a sorted list may go in front of it. */
  lemma SortedByEndCons(y: Entry, t: seq<Entry>)
    requires SortedByEndDesc(t) && forall z | z in t :: LexLe(z.end, y.end)
    ensures SortedByEndDesc([y] + t)
  {
    forall i, j | 0 <= i < j < |[y] + t|
      ensures LexLe(([y] + t)[j].end, ([y] + t)[i].end)
    {
      if i == 0 {
        assert ([y] + t)[j] == t[j - 1] && t[j - 1] in t;
      } else {
        assert ([y] + t)[i] == t[i - 1] && ([y] + t)[j] == t[j - 1];
      }
    }
  }

  lemma {:induction false} InsertByEndSorted(x: Entry, s: seq<Entry>)
    requires SortedByEndDesc(s)
    ensures SortedByEndDesc(InsertByEnd(x, s))
  {
    if s != [] && !LexLe(s[0].end, x.end) {
      var t := InsertByEnd(x, s[1..]);
      InsertByEndSorted(x, s[1..]);
      InsertByEndPermutes(x, s[1..]);
      LexLeTotal(x.end, s[0].end);
      forall z | z in t
        ensures LexLe(z.end, s[0].end)
      {
        assert z in multiset(s[1..]) + multiset{x};
        if z != x {
          var k :| 0 <= k < |s[1..]| && s[1..][k] == z;
          assert s[k + 1] == z;
        }
      }
      SortedByEndCons(s[0], t);
    } else if s != [] {
      forall z | z in s
        ensures LexLe(z.end, x.end)
      {
        var j :| 0 <= j < |s| && s[j] == z;
        if j > 0 {
          assert LexLe(s[j].end, s[0].end);
          LexLeTransitive(s[j].end, s[0].end, x.end);
        }
      }
      SortedByEndCons(x, s);
    }
  }

  /** Insertion into a list sorted by `end` descending adds the entry and keeps the order. */
  lemma InsertByEndCorrect(x: Entry, s: seq<Entry>)
    requires SortedByEndDesc(s)
    ensures multiset(InsertByEnd(x, s)) == multiset(s) + multiset{x}
    ensures SortedByEndDesc(InsertByEnd(x, s))
  {
    InsertByEndPermutes(x, s);
    InsertByEndSorted(x, s);
  }

  lemma {:induction false} InsertByEndStable(x: Entry, s: seq<Entry>, k: string)
    ensures WithEnd(InsertByEnd(x, s), k) == (if x.end == k then [x] else []) + WithEnd(s, k)
  {
    if s == [] {
    } else if LexLe(s[0].end, x.end) {
      assert ([x] + s)[1..] == s;
    } else {
      if s[0].end == x.end { LexLeReflexive(x.end); }
      var rest := InsertByEnd(x, s[1..]);
      InsertByEndStable(x, s[1..], k);
      assert InsertByEnd(x, s) == [s[0]] + rest;
      WithEndAppend([s[0]], rest, k);
      assert WithEnd([s[0]], k) == (if s[0].end == k then [s[0]] else []) by {
        assert [s[0]][1..] == [];
      }
      assert WithEnd(s, k) == WithEnd([s[0]], k) + WithEnd(s[1..], k);
    }
  }

  /** The sort orders by `end` descending and permutes the list. */
  lemma {:induction false} SortByEndDescCorrect(s: seq<Entry>)
    ensures multiset(SortByEndDesc(s)) == multiset(s)
    ensures SortedByEndDesc(SortByEndDesc(s))
  {
    if s != [] {
      SortByEndDescCorrect(s[1..]);
      InsertByEndCorrect(s[0], SortByEndDesc(s[1..]));
      assert s == [s[0]] + s[1..];
    }
  }

  /** The sort is stable: entries with the same `end` keep their input order. */
  lemma {:induction false} SortByEndDescStable(s: seq<Entry>, k: string)
    ensures WithEnd(SortByEndDesc(s), k) == WithEnd(s, k)
  {
    if s != [] {
      SortByEndDescStable(s[1..], k);
      InsertByEndStable(s[0], SortByEndDesc(s[1..]), k);
    }
  }

  // ---------------------------------------------------------------------------
  // Normalization

  function NormalizeEntry(e: RawEntry): Entry {
    Entry(
      e.company.GetOr(""),
      e.title.GetOr(""),
      e.start.GetOr(""),
      e.end.GetOr(""),
      SortStrings(e.technologies.GetOr([])))
  }

  /** The entries in input order, each normalized. */
  function NormalizeEntries(s: seq<RawEntry>): (r: seq<Entry>)
    ensures |r| == |s|
    ensures forall i :: 0 <= i < |s| ==> r[i] == NormalizeEntry(s[i])
  {
    seq(|s|, i requires 0 <= i < |s| => NormalizeEntry(s[i]))
  }

  function NormalizePersonal(p: RawPersonal): Personal {
    Personal(p.fullName.GetOr(""), p.email.GetOr(""), p.location.GetOr(""), p.linkedin.GetOr(""))
  }

  function NormalizeSalary(s: RawSalary): Salary {
    Salary(s.preferredRate.GetOr(0), s.minRate.GetOr(0), s.currency.GetOr("USD"), s.availability.GetOr(40))
  }

  /** The record `_normalize_data` returns, with `compressedAt` standing for `datetime.now().isoformat()`. */
  function Normalized(raw: RawBundle, compressedAt: string): Record {
    var experience := SortByEndDesc(NormalizeEntries(raw.experience));
    Record(
      NormalizePersonal(raw.personal),
      experience,
      NormalizeSalary(raw.salary),
      Metadata(compressedAt, |experience|, None))
  }

  /** What every normalized record satisfies. */
  lemma NormalizedShape(raw: RawBundle, compressedAt: string)
    ensures var r := Normalized(raw, compressedAt);
      && SortedByEndDesc(r.experience)
      && multiset(r.experience) == multiset(NormalizeEntries(raw.experience))
      && (forall k :: WithEnd(r.experience, k) == WithEnd(NormalizeEntries(raw.experience), k))
      && (forall e :: e in r.experience ==> SortedAsc(e.technologies))
      && r.metadata.totalExperienceEntries == |r.experience| == |raw.experience|
      && r.metadata.truncatedEntries == None
  {
    var r := Normalized(raw, compressedAt);
    var entries := NormalizeEntries(raw.experience);
    SortByEndDescCorrect(entries);
    forall k ensures WithEnd(r.experience, k) == WithEnd(entries, k) {
      SortByEndDescStable(entries, k);
    }
    forall e | e in r.experience
      ensures SortedAsc(e.technologies)
    {
      assert e in multiset(entries);
      var i :| 0 <= i < |entries| && entries[i] == e;
      SortStringsCorrect(raw.experience[i].technologies.GetOr([]));
    }
    assert |multiset(r.experience)| == |multiset(entries)|;
  }

  /** Missing fields take the defaults "", 0, "USD", 40 and the empty technologies list. */
  lemma NormalizeDefaults(raw: RawBundle, compressedAt: string)
    ensures var r := Normalized(raw, compressedAt);
      && (raw.personal.fullName == None ==> r.personal.fullName == "")
      && (raw.personal.email == None ==> r.personal.email == "")
      && (raw.personal.location == None ==> r.personal.location == "")
      && (raw.personal.linkedin == None ==> r.personal.linkedin == "")
      && (raw.salary.preferredRate == None ==> r.salary.preferredRate == 0)
      && (raw.salary.minRate == None ==> r.salary.minRate == 0)
      && (raw.salary.currency == None ==> r.salary.currency == "USD")
      && (raw.salary.availability == None ==> r.salary.availability == 40)
      && (forall e :: e in raw.experience && e.technologies == None ==> NormalizeEntry(e).technologies == [])
  {
  }

  /**
   * The loop of `_normalize_data`: each entry is normalized and appended, then
   * the list is sorted by `end`, most recent first.
   */
  method NormalizeData(raw: RawBundle, compressedAt: string) returns (r: Record)
    ensures r == Normalized(raw, compressedAt)
    ensures SortedByEndDesc(r.experience)
    ensures multiset(r.experience) == multiset(NormalizeEntries(raw.experience))
    ensures r.metadata.totalExperienceEntries == |r.experience| == |raw.experience|
  {
    var workExp: seq<Entry> := [];
    for i := 0 to |raw.experience|
      invariant |workExp| == i
      invariant forall k :: 0 <= k < i ==> workExp[k] == NormalizeEntry(raw.experience[k])
    {
      workExp := workExp + [NormalizeEntry(raw.experience[i])];
    }
    assert workExp == NormalizeEntries(raw.experience);
    workExp := SortByEndDesc(workExp);
    r := Record(
      NormalizePersonal(raw.personal),
      workExp,
      NormalizeSalary(raw.salary),
      Metadata(compressedAt, |workExp|, None));
    NormalizedShape(raw, compressedAt);
  }
}

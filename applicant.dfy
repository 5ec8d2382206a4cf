/**
 * The normalized applicant record: the shape `JSONCompressor._normalize_data`
 * produces and the shape the shortlist engine reads.
 */
module Applicant {
  import opened Text

  /** One `work_experience` entry. `start`/`end` are `YYYY-MM` strings or "present". */
  datatype Entry = Entry(
    company: string,
    title: string,
    start: string,
    end: string,
    technologies: seq<string>)

  /** `personal_details`. */
  datatype Personal = Personal(
    fullName: string,
    email: string,
    location: string,
    linkedin: string)

  /** `salary_preferences`; `availability` is in hours per week. */
  datatype Salary = Salary(
    preferredRate: int,
    minRate: int,
    currency: string,
    availability: int)

  /**
   * `metadata`: the `compressed_at` timestamp (a string supplied by the caller),
   * the entry count at normalization time, and `truncated_entries`, present only
   * once size optimization has dropped entries.
   */
  datatype Metadata = Metadata(
    compressedAt: string,
    totalExperienceEntries: nat,
    truncatedEntries: Option<nat>)

  datatype Record = Record(
    personal: Personal,
    experience: seq<Entry>,
    salary: Salary,
    metadata: Metadata)

  /** What the content hash covers: every top-level key except `metadata`. */
  datatype Content = Content(
    personal: Personal,
    experience: seq<Entry>,
    salary: Salary)

  function ContentOf(r: Record): (c: Content)
    ensures c.personal == r.personal && c.experience == r.experience && c.salary == r.salary
  {
    Content(r.personal, r.experience, r.salary)
  }

  /** Two records have the same content exactly when they differ at most in `metadata`. */
  lemma ContentIgnoresMetadata(r1: Record, r2: Record)
    ensures ContentOf(r1) == ContentOf(r2) <==>
      r1.personal == r2.personal && r1.experience == r2.experience && r1.salary == r2.salary
  {
  }
}

/**
 * The library code the compressor calls and the model does not look into:
 * JSON text encoding and decoding, SHA-256, and gzip followed by base64.
 * Each one is a function supplied by the caller; the only facts assumed about
 * them are the two round trips stated by `Lawful`.
 */
module Foreign {
  import opened Text
  import opened Applicant

  datatype External = External(
    /** `json.dumps(record, separators=(',', ':'))`. */
    compactJson: Record -> string,
    /** `json.dumps(content, sort_keys=True, separators=(',', ':'))`. */
    sortedJson: Content -> string,
    /** `json.loads(text)`, `None` when it raises. */
    parseJson: string -> Option<Record>,
    /** `hashlib.sha256(text.encode('utf-8')).hexdigest()`. */
    sha256Hex: string -> string,
    /** `base64.b64encode(gzip.compress(text.encode('utf-8'))).decode('utf-8')`. */
    encode: string -> string,
    /** `gzip.decompress(base64.b64decode(payload)).decode('utf-8')`, `None` when any step raises. */
    decode: string -> Option<string>)

  /** Decoding undoes encoding, and parsing undoes compact serialization. */
  ghost predicate Lawful(x: External) {
    && (forall s :: x.decode(x.encode(s)) == Some(s))
    && (forall r :: x.parseJson(x.compactJson(r)) == Some(r))
  }
}

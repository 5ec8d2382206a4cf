/**
 * `JSONCompressor` (app/models/compression.py:13-152): content hash,
 * size optimization by dropping the oldest entries, and the encode / decode
 * pair. JSON, gzip, base64 and SHA-256 are the caller-supplied functions of
 * `Foreign.External`.
 */
module Compression {
  import opened Text
  import opened Applicant
  import opened Foreign
  import opened Normalization

  /** `MAX_JSON_SIZE` when the environment does not set it (config/settings.py:27). */
  const DefaultMaxSize: nat := 102400

  // ---------------------------------------------------------------------------
  // The content hash

  /** `_compute_hash`: SHA-256 of the key-sorted JSON of everything but `metadata`. */
  function ComputeHash(x: External, r: Record): string {
    x.sha256Hex(x.sortedJson(ContentOf(r)))
  }

  /** Records that differ only in `metadata` hash alike. */
  lemma HashIgnoresMetadata(x: External, r1: Record, r2: Record)
    requires r1.personal == r2.personal && r1.experience == r2.experience && r1.salary == r2.salary
    ensures ComputeHash(x, r1) == ComputeHash(x, r2)
  {
    ContentIgnoresMetadata(r1, r2);
  }

  /** The time of normalization does not enter the hash. */
  lemma HashIgnoresTimestamp(x: External, raw: RawBundle, t1: string, t2: string)
    ensures ComputeHash(x, Normalized(raw, t1)) == ComputeHash(x, Normalized(raw, t2))
  {
    HashIgnoresMetadata(x, Normalized(raw, t1), Normalized(raw, t2));
  }

  /** Two raw entries that differ only in the order of their technologies. */
  predicate SameUpToTechnologyOrder(a: RawEntry, b: RawEntry) {
    && a.company == b.company && a.title == b.title && a.start == b.start && a.end == b.end
    && multiset(a.technologies.GetOr([])) == multiset(b.technologies.GetOr([]))
  }

  /**
   * Listing an entry's technologies in another order, or the caller's
   * `current_hash`, changes neither the normalized record nor its hash.
   */
  lemma HashIgnoresTechnologyOrder(x: External, raw1: RawBundle, raw2: RawBundle, t1: string, t2: string)
    requires raw1.personal == raw2.personal && raw1.salary == raw2.salary
    requires |raw1.experience| == |raw2.experience|
    requires forall i :: 0 <= i < |raw1.experience| ==> SameUpToTechnologyOrder(raw1.experience[i], raw2.experience[i])
    ensures Normalized(raw1, t1).experience == Normalized(raw2, t2).experience
    ensures ComputeHash(x, Normalized(raw1, t1)) == ComputeHash(x, Normalized(raw2, t2))
  {
    var e1, e2 := NormalizeEntries(raw1.experience), NormalizeEntries(raw2.experience);
    forall i | 0 <= i < |e1|
      ensures e1[i] == e2[i]
    {
      SortStringsIgnoresOrder(raw1.experience[i].technologies.GetOr([]), raw2.experience[i].technologies.GetOr([]));
    }
    assert e1 == e2;
    HashIgnoresMetadata(x, Normalized(raw1, t1), Normalized(raw2, t2));
  }

  // ---------------------------------------------------------------------------
  // Size optimization

  /** The compact JSON of `r` is within `maxSize` characters. */
  predicate Fits(x: External, r: Record, maxSize: nat) {
    |x.compactJson(r)| <= maxSize
  }

  /** The first `k` entries, with `truncated_entries` recording how many were dropped. */
  function Truncated(data: Record, k: nat): (r: Record)
    requires k <= |data.experience|
    ensures r.experience == data.experience[..k]
    ensures r.metadata.truncatedEntries == Some(|data.experience| - k)
    ensures r.personal == data.personal && r.salary == data.salary
    ensures r.metadata.compressedAt == data.metadata.compressedAt
    ensures r.metadata.totalExperienceEntries == data.metadata.totalExperienceEntries
  {
    data.(experience := data.experience[..k],
          metadata := data.metadata.(truncatedEntries := Some(|data.experience| - k)))
  }

  /** How many entries the loop keeps when it starts from `k` entries. */
  function KeptFrom(x: External, data: Record, maxSize: nat, k: nat): (m: nat)
    requires 1 <= k <= |data.experience|
    ensures 1 <= m <= k
    decreases k
  {
    if k == 1 then 1
    else if Fits(x, Truncated(data, k - 1), maxSize) then k - 1
    else KeptFrom(x, data, maxSize, k - 1)
  }

  /** From `k` entries the loop stops at the largest count below `k` that fits, or at one entry. */
  lemma {:induction false} KeptFromSpec(x: External, data: Record, maxSize: nat, k: nat)
    requires 2 <= k <= |data.experience|
    ensures var m := KeptFrom(x, data, maxSize, k);
      && 1 <= m < k
      && (Fits(x, Truncated(data, m), maxSize) || m == 1)
      && forall j :: m < j < k ==> !Fits(x, Truncated(data, j), maxSize)
    decreases k
  {
    if k > 2 && !Fits(x, Truncated(data, k - 1), maxSize) {
      KeptFromSpec(x, data, maxSize, k - 1);
    }
  }

  /** `_optimize_data_size`. */
  function Optimized(x: External, data: Record, maxSize: nat): Record {
    if Fits(x, data, maxSize) || |data.experience| <= 1 then data
    else Truncated(data, KeptFrom(x, data, maxSize, |data.experience|))
  }

  /** What optimization promises: the whole record when it fits, else the longest fitting prefix of at least one entry. */
  lemma OptimizedSpec(x: External, data: Record, maxSize: nat)
    ensures var r := Optimized(x, data, maxSize);
      && r.personal == data.personal && r.salary == data.salary
      && (Fits(x, data, maxSize) ==> r == data)
      && (|data.experience| <= 1 ==> r == data)
      && (!Fits(x, data, maxSize) && |data.experience| >= 2 ==>
            exists k ::
              && 1 <= k < |data.experience|
              && r == Truncated(data, k)
              && (Fits(x, r, maxSize) || k == 1)
              && forall j :: k < j < |data.experience| ==> !Fits(x, Truncated(data, j), maxSize))
  {
    var n := |data.experience|;
    if !Fits(x, data, maxSize) && n >= 2 {
      KeptFromSpec(x, data, maxSize, n);
      var k := KeptFrom(x, data, maxSize, n);
      assert Optimized(x, data, maxSize) == Truncated(data, k);
    }
  }

  /**
   * With at least two entries, if the record cut down to its first entry fits,
   * the optimized record fits. (With one entry or none, an oversized record is
   * returned as it is.)
   */
  lemma OptimizedFits(x: External, data: Record, maxSize: nat)
    requires |data.experience| >= 2 && Fits(x, Truncated(data, 1), maxSize)
    ensures Fits(x, Optimized(x, data, maxSize), maxSize)
  {
    if !Fits(x, data, maxSize) {
      KeptFromSpec(x, data, maxSize, |data.experience|);
    }
  }

  /** Optimization keeps the most recent entries: the result's entries are a prefix of the input's. */
  lemma OptimizedKeepsPrefix(x: External, data: Record, maxSize: nat)
    ensures Optimized(x, data, maxSize).experience <= data.experience
  {
  }

  /** A tighter budget never keeps more entries in the loop. */
  lemma {:induction false} KeptFromMonotone(x: External, data: Record, small: nat, large: nat, k: nat)
    requires small <= large
    requires 1 <= k <= |data.experience|
    ensures KeptFrom(x, data, small, k) <= KeptFrom(x, data, large, k)
    decreases k
  {
    if k > 1 && !Fits(x, Truncated(data, k - 1), large) {
      KeptFromMonotone(x, data, small, large, k - 1);
    }
  }

  /** A tighter budget never keeps more entries: the kept count is monotone in `maxSize`. */
  lemma OptimizedMonotone(x: External, data: Record, small: nat, large: nat)
    requires small <= large
    ensures |Optimized(x, data, small).experience| <= |Optimized(x, data, large).experience|
  {
    var n := |data.experience|;
    if !Fits(x, data, large) && n >= 2 {
      KeptFromMonotone(x, data, small, large, n);
    }
  }

  method OptimizeDataSize(x: External, data: Record, maxSize: nat) returns (optimizedData: Record)
    ensures optimizedData == Optimized(x, data, maxSize)
  {
    var jsonStr := x.compactJson(data);
    if |jsonStr| <= maxSize {
      return data;
    }
    var workExperience := data.experience;
    optimizedData := data;
    var maxEntries := |workExperience|;
    while maxEntries > 1
      invariant 1 <= maxEntries <= |workExperience| || (maxEntries == |workExperience| <= 1)
      invariant maxEntries == |workExperience| ==> optimizedData == data
      invariant maxEntries < |workExperience| ==> optimizedData == Truncated(data, maxEntries)
      invariant |workExperience| >= 2 ==> KeptFrom(x, data, maxSize, |workExperience|) == KeptFrom(x, data, maxSize, maxEntries)
    {
      maxEntries := maxEntries - 1;
      optimizedData := optimizedData.(experience := workExperience[..maxEntries],
        metadata := optimizedData.metadata.(truncatedEntries := Some(|workExperience| - maxEntries)));
      assert optimizedData == Truncated(data, maxEntries);
      jsonStr := x.compactJson(optimizedData);
      if |jsonStr| <= maxSize {
        break;
      }
    }
  }

  // ---------------------------------------------------------------------------
  // Compression

  /**
   * The result of `compress_applicant_data`; `originalSize` is present on the
   * path that compresses. The `compression_ratio` float is not modelled.
   */
  datatype CompressResult = CompressResult(
    compressedJson: Option<string>,
    hash: string,
    size: nat,
    changed: bool,
    originalSize: Option<nat>)

  /** The text stored for record `r`. */
  function Payload(x: External, r: Record): string {
    x.encode(x.compactJson(r))
  }

  method CompressApplicantData(x: External, raw: RawBundle, compressedAt: string, maxSize: nat)
    returns (res: CompressResult)
    ensures res.hash == ComputeHash(x, Normalized(raw, compressedAt))
    ensures !res.changed <==> res.hash == raw.currentHash.GetOr("")
    ensures !res.changed ==> res.compressedJson == None && res.size == 0 && res.originalSize == None
    ensures res.changed ==>
      var stored := Optimized(x, Normalized(raw, compressedAt), maxSize);
      && res.compressedJson == Some(Payload(x, stored))
      && res.size == |Payload(x, stored)|
      && res.originalSize == Some(|x.compactJson(stored)|)
    ensures Lawful(x) && res.changed ==>
      DecompressApplicantData(x, res.compressedJson.value).data == Some(Optimized(x, Normalized(raw, compressedAt), maxSize))
  {
    var normalizedData := NormalizeData(raw, compressedAt);
    var dataHash := ComputeHash(x, normalizedData);
    var currentHash := raw.currentHash.GetOr("");
    if dataHash == currentHash {
      return CompressResult(None, dataHash, 0, false, None);
    }
    var optimizedData := OptimizeDataSize(x, normalizedData, maxSize);
    var jsonStr := x.compactJson(optimizedData);
    var compressedB64 := x.encode(jsonStr);
    res := CompressResult(Some(compressedB64), dataHash, |compressedB64|, true, Some(|jsonStr|));
    if Lawful(x) {
      RoundTrip(x, optimizedData);
    }
  }

  // ---------------------------------------------------------------------------
  // Decompression

  /** Why decompression failed: the payload does not decode, or the text is not JSON. */
  datatype DecodeError = InvalidPayload | InvalidJson

  datatype DecompressResult = DecompressResult(success: bool, data: Option<Record>, error: Option<DecodeError>)

  /** `decompress_applicant_data`: exceptions become an unsuccessful result. */
  function DecompressApplicantData(x: External, compressedJson: string): (r: DecompressResult)
    ensures r.success <==> r.data.Some?
    ensures r.success <==> r.error.None?
    ensures r.success <==> exists s :: x.decode(compressedJson) == Some(s) && x.parseJson(s).Some?
    ensures r.success ==> x.parseJson(x.decode(compressedJson).value) == r.data
  {
    match x.decode(compressedJson)
    case None => DecompressResult(false, None, Some(InvalidPayload))
    case Some(jsonStr) =>
      match x.parseJson(jsonStr)
      case None => DecompressResult(false, None, Some(InvalidJson))
      case Some(data) => DecompressResult(true, Some(data), None)
  }

  /** Decompressing what was compressed gives the record back. */
  lemma RoundTrip(x: External, r: Record)
    requires Lawful(x)
    ensures DecompressApplicantData(x, Payload(x, r)) == DecompressResult(true, Some(r), None)
  {
    assert x.decode(x.encode(x.compactJson(r))) == Some(x.compactJson(r));
    assert x.parseJson(x.compactJson(r)) == Some(r);
  }

  /** A stored payload always restores to a normalized record: sorted, and truncated only as optimization does. */
  lemma StoredRecordShape(x: External, raw: RawBundle, compressedAt: string, maxSize: nat)
    requires Lawful(x)
    ensures var stored := Optimized(x, Normalized(raw, compressedAt), maxSize);
      && DecompressApplicantData(x, Payload(x, stored)).data == Some(stored)
      && SortedByEndDesc(stored.experience)
      && stored.experience <= Normalized(raw, compressedAt).experience
  {
    var data := Normalized(raw, compressedAt);
    var stored := Optimized(x, data, maxSize);
    RoundTrip(x, stored);
    NormalizedShape(raw, compressedAt);
    OptimizedKeepsPrefix(x, data, maxSize);
    assert stored.experience == data.experience[..|stored.experience|];
  }
}

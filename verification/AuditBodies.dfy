/** What the audit trail keeps of a request or response body, and how much of a request body is read at all. */
module AuditBodies {
  import opened Wrappers
  import opened GoStrings
  import Base64
  import Utf8
  import opened Postgres

  const ENCODING_UTF8: Bytes := "utf8"
  const ENCODING_BASE64: Bytes := "base64"
  const MAX_CLIENT_REQUEST_ID := 128
  const MAX_INT64: nat := 0x7FFF_FFFF_FFFF_FFFF
  const TWO_TO_64: nat := 0x1_0000_0000_0000_0000

  /** `json` is the column value: the normalised document, when the body is one. */
  datatype AuditBody = AuditBody(text: Bytes, base64: Bytes, json: Option<Bytes>, encoding: Bytes, size: nat,
      truncated: bool)

  /** Go's zero value: not even an encoding. */
  const ZERO_BODY := AuditBody("", "", None, "", 0, false)
  const EMPTY_BODY := ZERO_BODY.(encoding := ENCODING_UTF8)

  /** How a body is re-encoded when it is exactly one JSON document; the JSON library itself is a parameter. */
  type Normalizer = Bytes -> Option<Bytes>

  predicate MentionsJson(contentType: Bytes) {
    Contains(ToLower(contentType), "json")
  }

  function Capture(body: Bytes, contentType: Bytes, truncated: bool, originalSize: nat,
      normalize: Normalizer): AuditBody {
    if body == [] then EMPTY_BODY.(size := originalSize, truncated := truncated) else
      var utf8 := Utf8.Valid(body);
      AuditBody(
        if utf8 then body else "",
        if utf8 then "" else Base64.EncodeStd(body),
        if MentionsJson(contentType) && !truncated then normalize(body) else None,
        if utf8 then ENCODING_UTF8 else ENCODING_BASE64,
        originalSize,
        truncated)
  }

  method NewAuditBody(body: Bytes, contentType: Bytes, truncated: bool, originalSize: nat, normalize: Normalizer)
    returns (result: AuditBody)
    ensures result == Capture(body, contentType, truncated, originalSize, normalize)
  {
    result := EMPTY_BODY.(size := originalSize, truncated := truncated);
    if |body| == 0 {
      return;
    }
    if Utf8.Valid(body) {
      result := result.(text := body);
    } else {
      result := result.(encoding := ENCODING_BASE64, base64 := Base64.EncodeStd(body));
    }
    if MentionsJson(contentType) && !truncated {
      result := result.(json := normalize(body));
    }
  }

  function Min(a: nat, b: nat): nat {
    if a <= b then a else b
  }

  /** `auditBodyFromBytesWithOriginalSize`. */
  function FromBytesWithOriginalSize(body: Bytes, contentType: Bytes, limit: nat, originalSize: nat,
      normalize: Normalizer): AuditBody {
    var kept := if |body| > limit then body[..limit] else body;
    Capture(kept, contentType, |body| > limit || originalSize > |kept|, originalSize, normalize)
  }

  /** `auditBodyFromBytes`. */
  function FromBytes(body: Bytes, contentType: Bytes, limit: nat, normalize: Normalizer): AuditBody {
    FromBytesWithOriginalSize(body, contentType, limit, |body|, normalize)
  }

  /** The audit half of `readResponseAuditBody`, for an upstream body that was read in full. */
  function FromResponse(body: Bytes, contentType: Bytes, limit: nat, normalize: Normalizer): AuditBody {
    var truncated := |body| > limit;
    Capture(if truncated then body[..limit] else body, contentType, truncated, |body|, normalize)
  }

  /** What a reader of the stored columns gets back. */
  function Stored(body: AuditBody): Option<Bytes> {
    if body.encoding == ENCODING_UTF8 then Some(body.text)
    else if body.encoding == ENCODING_BASE64 then Base64.DecodeStd(body.base64)
    else None
  }

  lemma CaptureIsReadable(body: Bytes, contentType: Bytes, truncated: bool, originalSize: nat, normalize: Normalizer)
    ensures Stored(Capture(body, contentType, truncated, originalSize, normalize)) == Some(body)
  {
    Base64.StdRoundTrip(body);
  }

  /**
   * The columns give back exactly the first bytes of the body, and are marked truncated exactly when that is not all
   * of it.
   */
  lemma StoredIsPrefix(body: Bytes, contentType: Bytes, limit: nat, originalSize: nat, normalize: Normalizer)
    requires originalSize >= |body|
    ensures var kept := FromBytesWithOriginalSize(body, contentType, limit, originalSize, normalize);
            && Stored(kept) == Some(body[..Min(|body|, limit)])
            && kept.size == originalSize
            && (kept.truncated <==> kept.size > |Stored(kept).value|)
            && (kept.json.Some? ==> !kept.truncated && MentionsJson(contentType) && normalize(body) == kept.json)
  {
    var cut := body[..Min(|body|, limit)];
    CaptureIsReadable(cut, contentType, |body| > limit || originalSize > |cut|, originalSize, normalize);
    assert |body| <= limit ==> cut == body;
  }

  /**
   * The column for documents is filled exactly for a whole body, not empty, whose type speaks of JSON in any letter
   * case.
   */
  lemma JsonIsKept(body: Bytes, contentType: Bytes, limit: nat, originalSize: nat, normalize: Normalizer)
    requires originalSize >= |body|
    ensures FromBytesWithOriginalSize(body, contentType, limit, originalSize, normalize).json
            == if body != [] && originalSize <= limit && originalSize == |body| &&
                Contains(ToLower(contentType), "json")
               then normalize(body) else None
  {
  }

  /** The path for upstream responses and the path for the gateway's own bodies record the same thing. */
  lemma PathsAgree(body: Bytes, contentType: Bytes, limit: nat, normalize: Normalizer)
    ensures FromResponse(body, contentType, limit, normalize) == FromBytes(body, contentType, limit, normalize)
  {
  }

  /** What the database's `jsonb` type takes; like the JSON library, a parameter. */
  type JsonType = Bytes -> bool

  /** What the columns and check constraints of the table require of a body. */
  predicate Storable(body: AuditBody, jsonFits: JsonType) {
    && (body.encoding == ENCODING_UTF8 || body.encoding == ENCODING_BASE64)
    && TextFits(body.text) && TextFits(body.base64) && body.size <= MAX_INT32
    && (body.json.Some? ==> jsonFits(body.json.value))
  }

  /** The same, said of the bytes themselves: of those that are kept, and of how many there were. */
  predicate BodyFits(body: Bytes, contentType: Bytes, limit: nat, originalSize: nat, normalize: Normalizer,
      jsonFits: JsonType) {
    var cut := body[..Min(|body|, limit)];
    && originalSize <= MAX_INT32
    && (Utf8.Valid(cut) ==> NUL !in cut)
    && (cut != [] && |cut| == originalSize && MentionsJson(contentType) && normalize(cut).Some? ==>
         jsonFits(normalize(cut).value))
  }

  lemma EncodedIsAscii(s: Bytes)
    ensures IsAscii(Base64.EncodeStd(s))
  {
  }

  /** Ill-formed bytes are always kept in a form that fits; well-formed ones fit just when none of them is zero. */
  lemma StorableIffFits(body: Bytes, contentType: Bytes, limit: nat, originalSize: nat, normalize: Normalizer,
      jsonFits: JsonType)
    requires originalSize >= |body|
    ensures Storable(FromBytesWithOriginalSize(body, contentType, limit, originalSize, normalize), jsonFits)
            <==> BodyFits(body, contentType, limit, originalSize, normalize, jsonFits)
  {
    hide MentionsJson, Base64.EncodeStd, Utf8.Valid;
    var cut := body[..Min(|body|, limit)];
    assert |body| <= limit ==> cut == body;
    Utf8.EmptyIsValid();
    EncodedIsAscii(cut);
    AsciiFits(Base64.EncodeStd(cut));
  }

  /** A well-formed text stays readable as text exactly when the cut splits no code point. */
  lemma TextSurvivesCut(body: Bytes, contentType: Bytes, limit: nat, originalSize: nat, normalize: Normalizer)
    requires Utf8.Valid(body)
    ensures FromBytesWithOriginalSize(body, contentType, limit, originalSize, normalize).encoding == ENCODING_UTF8
            <==> Utf8.IsBoundary(body, Min(|body|, limit))
  {
    hide Utf8.Valid, Utf8.IsBoundary, Base64.EncodeStd, MentionsJson;
    var k := Min(|body|, limit);
    Utf8.EmptyIsValid();
    Utf8.ValidCut(body, k);
    assert |body| <= limit ==> body[..k] == body;
  }

  // ------------------------------------------------------------ client request id

  function Bounded(id: Bytes): Bytes {
    if |id| <= MAX_CLIENT_REQUEST_ID then id else
      var cut := id[..MAX_CLIENT_REQUEST_ID];
      if Utf8.Valid(cut) then cut else Utf8.ToValid(cut)
  }

  /** The correlation id kept from the client's own `X-Request-Id`. */
  function ClientRequestId(header: Bytes): Bytes {
    Bounded(TrimSpace(header))
  }

  lemma CutIdIsValid(id: Bytes)
    requires |id| > MAX_CLIENT_REQUEST_ID
    ensures Utf8.Valid(Bounded(id)) && |Bounded(id)| <= MAX_CLIENT_REQUEST_ID
  {
    Utf8.ToValidIsValid(id[..MAX_CLIENT_REQUEST_ID]);
  }

  lemma CutIdIsPrefix(id: Bytes)
    requires |id| > MAX_CLIENT_REQUEST_ID && Utf8.Valid(id)
    ensures Bounded(id) <= id && |Bounded(id)| > MAX_CLIENT_REQUEST_ID - Utf8.MAX_RUNE_WIDTH
  {
    Utf8.ToValidAfterCut(id, MAX_CLIENT_REQUEST_ID);
  }

  /**
   * An id is bounded whatever the client sends. It is well formed exactly when it was cut or was well formed to begin
   * with; and the cut of a well-formed id is a prefix that loses less than one code point.
   */
  lemma ClientRequestIdIsBounded(header: Bytes)
    ensures var id, kept := TrimSpace(header), ClientRequestId(header);
            && |kept| <= MAX_CLIENT_REQUEST_ID
            && (Utf8.Valid(kept) <==> |id| > MAX_CLIENT_REQUEST_ID || Utf8.Valid(id))
            && (Utf8.Valid(id) ==> kept <= id)
            && (|id| <= 128 ==> kept == id)
            && (Utf8.Valid(id) && |id| > MAX_CLIENT_REQUEST_ID ==> |kept| > MAX_CLIENT_REQUEST_ID - Utf8.MAX_RUNE_WIDTH)
  {
    var id := TrimSpace(header);
    if |id| > MAX_CLIENT_REQUEST_ID {
      CutIdIsValid(id);
      if Utf8.Valid(id) {
        CutIdIsPrefix(id);
      }
    }
  }

  /** Which header values give an id that a text column takes. */
  predicate IdFits(header: Bytes) {
    var id := TrimSpace(header);
    NUL !in id[..Min(|id|, MAX_CLIENT_REQUEST_ID)] && (|id| > MAX_CLIENT_REQUEST_ID || Utf8.Valid(id))
  }

  /** Cutting an id repairs it; a short one is kept as it is, and must have been well formed. */
  lemma StoredIdFits(header: Bytes)
    ensures TextFits(ClientRequestId(header)) <==> IdFits(header)
  {
    hide TrimSpace, Utf8.Valid;
    var id := TrimSpace(header);
    ClientRequestIdIsBounded(header);
    if |id| <= MAX_CLIENT_REQUEST_ID {
      assert id[..|id|] == id;
    } else {
      RepairKeepsZeroBytes(id[..MAX_CLIENT_REQUEST_ID]);
    }
  }

  // ------------------------------------------------------------ reading a request body

  /** A request body: none at all, or bytes that end cleanly or with a read error. */
  datatype Stream = NoBody | Stream(data: Bytes, broken: bool)

  datatype Reading = Unreadable | Reading(body: Bytes, audit: AuditBody, tooLarge: bool)

  /** Two's complement addition of one in 64 bits. */
  function Increment64(n: nat): int
    requires n <= MAX_INT64
  {
    if n == MAX_INT64 then n + 1 - TWO_TO_64 else n + 1
  }

  /**
   * `io.ReadAll(io.LimitReader(stream, n))`: a limit of zero or less reads nothing, and an error past the limit is
   * never met.
   */
  function ReadLimited(stream: Stream, n: int): Option<Bytes>
    requires stream.Stream?
  {
    if n <= 0 then Some([])
    else if |stream.data| >= n then Some(stream.data[..n])
    else if stream.broken then None
    else Some(stream.data)
  }

  function ReadProxyRequestBody(stream: Stream, maxBody: nat, contentType: Bytes, auditLimit: nat,
      normalize: Normalizer): Reading
    requires maxBody <= MAX_INT64
  {
    if stream.NoBody? then Reading([], EMPTY_BODY, false) else
      match ReadLimited(stream, Increment64(maxBody))
      case None => Unreadable
      case Some(body) =>
        var tooLarge := |body| > maxBody;
        var kept := if tooLarge then body[..maxBody] else body;
        Reading(kept, FromBytesWithOriginalSize(kept, contentType, auditLimit, |body|, normalize), tooLarge)
  }

  /** A body is refused for its size, or read as it was sent. */
  ghost predicate ReadFaithfully(reading: Reading, data: Bytes, maxBody: nat) {
    reading.Reading? && if |data| > maxBody then reading.tooLarge else !reading.tooLarge && reading.body == data
  }

  /**
   * A body is read faithfully under every limit but the largest 64-bit one: there the limit plus one wraps round and
   * every body is taken for an empty one.
   */
  lemma BodyLimitIsExact(data: Bytes, maxBody: nat, contentType: Bytes, auditLimit: nat, normalize: Normalizer)
    requires maxBody <= MAX_INT64
    ensures var reading := ReadProxyRequestBody(Stream(data, false), maxBody, contentType, auditLimit, normalize);
            && (ReadFaithfully(reading, data, maxBody) <==> maxBody < MAX_INT64 || data == [])
            && (maxBody < MAX_INT64 ==> reading.audit.size == Min(|data|, maxBody + 1))
            && (maxBody < MAX_INT64 ==> Stored(reading.audit) == Some(data[..Min(|data|, Min(maxBody, auditLimit))]))
            && (maxBody < MAX_INT64 ==> (reading.audit.truncated <==> |data| > Min(maxBody, auditLimit)))
  {
    if maxBody < MAX_INT64 {
      var body := data[..Min(|data|, maxBody + 1)];
      assert |data| <= maxBody ==> body == data;
      var kept := data[..Min(|data|, maxBody)];
      StoredIsPrefix(kept, contentType, auditLimit, |body|, normalize);
      assert kept[..Min(|kept|, auditLimit)] == data[..Min(|data|, Min(maxBody, auditLimit))];
      assert (if |body| > maxBody then body[..maxBody] else body) == kept;
    }
  }

  /**
   * A connection that breaks is reported as unreadable just when it breaks within the limit; past it the body is too
   * large. Under the largest 64-bit limit neither is noticed.
   */
  lemma BrokenBody(data: Bytes, maxBody: nat, contentType: Bytes, auditLimit: nat, normalize: Normalizer)
    requires maxBody <= MAX_INT64
    ensures var reading := ReadProxyRequestBody(Stream(data, true), maxBody, contentType, auditLimit, normalize);
            && (reading.Unreadable? <==> |data| <= maxBody < MAX_INT64)
            && (reading.Reading? ==> (reading.tooLarge <==> maxBody < MAX_INT64))
            && (reading.Reading? && !reading.tooLarge ==> reading.body == [])
  {
  }

  /** What is read of a body in its entirety fits its columns just when its bytes do. */
  lemma ReadBodyIsStorable(
    stream: Stream, maxBody: nat, contentType: Bytes, auditLimit: nat, normalize: Normalizer, jsonFits: JsonType
  )
    requires maxBody <= MAX_INT64
    ensures var reading := ReadProxyRequestBody(stream, maxBody, contentType, auditLimit, normalize);
            reading.Reading? ==>
              (Storable(reading.audit, jsonFits) <==>
               BodyFits(reading.body, contentType, auditLimit, SizeRead(reading), normalize, jsonFits))
  {
    hide Storable, BodyFits, FromBytesWithOriginalSize;
    var reading := ReadProxyRequestBody(stream, maxBody, contentType, auditLimit, normalize);
    if reading.Reading? {
      StorableIffFits(reading.body, contentType, auditLimit, SizeRead(reading), normalize, jsonFits);
      EmptyBodyIsRead(contentType, auditLimit, normalize);
    }
  }

  /** How many bytes were read: one more than are kept of a body that is too large. */
  function SizeRead(reading: Reading): nat
    requires reading.Reading?
  {
    |reading.body| + if reading.tooLarge then 1 else 0
  }

  lemma EmptyBodyIsRead(contentType: Bytes, limit: nat, normalize: Normalizer)
    ensures FromBytesWithOriginalSize([], contentType, limit, 0, normalize) == EMPTY_BODY
  {
  }
}

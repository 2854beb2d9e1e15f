/**
 How long a correction report is as one JSON line (internal/correction/service.go:57-67),
 and which submissions are accepted (internal/correction/service.go:125-171). Lengths are
 bytes of UTF-8; a Dafny char is one rune of valid text.
 */
module ReportEncoding {
  import opened Wrappers
  import Text

  // ---------- text ----------

  function Utf8Length(c: char): nat {
    var n := c as int;
    if n < 0x80 then 1 else if n < 0x800 then 2 else if n < 0x10000 then 3 else 4
  }

  /** The bytes of one rune inside a JSON string as the Go encoder writes it, HTML escaping included. */
  function EscapedLength(c: char): nat {
    var n := c as int;
    if c == '"' || c == '\\' || n == 8 || n == 9 || n == 10 || n == 12 || n == 13 then 2
    else if n < 32 || c == '<' || c == '>' || c == '&' || n == 0x2028 || n == 0x2029 then 6
    else Utf8Length(c)
  }

  function ByteLength(s: string): nat {
    if s == "" then 0 else ByteLength(s[..|s| - 1]) + Utf8Length(s[|s| - 1])
  }

  function EscapedBytes(s: string): nat {
    if s == "" then 0 else EscapedBytes(s[..|s| - 1]) + EscapedLength(s[|s| - 1])
  }

  /** At most six bytes a rune. */
  lemma {:induction false} SixBytesARune(s: string)
    ensures |s| <= EscapedBytes(s) <= 6 * |s|
    ensures |s| <= ByteLength(s)
  {
    if s != "" { SixBytesARune(s[..|s| - 1]); }
  }

  lemma {:induction false} PlainTextIsUnescaped(s: string)
    requires forall c | c in s :: IsPlain(c)
    ensures EscapedBytes(s) == |s|
  {
    if s != "" {
      assert s[|s| - 1] in s;
      PlainTextIsUnescaped(s[..|s| - 1]);
    }
  }

  /** Letters, digits and '-': what IDs are made of. */
  predicate IsPlain(c: char) {
    'A' <= c <= 'Z' || 'a' <= c <= 'z' || '0' <= c <= '9' || c == '-'
  }

  lemma {:induction false} RepeatedEscape(c: char, n: nat)
    ensures EscapedBytes(seq(n, _ => c)) == n * EscapedLength(c)
  {
    if n > 0 {
      RepeatedEscape(c, n - 1);
      assert seq(n, _ => c)[..n - 1] == seq(n - 1, _ => c);
      assert n * EscapedLength(c) == (n - 1) * EscapedLength(c) + EscapedLength(c);
    }
  }

  // ---------- reports ----------

  /** Times are whole seconds UTC, so each is written in 20 characters; deleteAfter is None for the zero time. */
  datatype Report = Report(
    reportId: string,
    facilityId: string,
    category: string,
    details: string,
    evidenceUrl: string,
    contact: string,
    contactConsent: bool,
    receivedAt: int,
    deleteAfter: Option<int>)

  const TIME_LENGTH := 22 // "2006-01-02T15:04:05Z" with its quotes

  function QuotedLength(s: string): nat {
    2 + EscapedBytes(s)
  }

  function OptionalText(member: string, s: string): nat {
    if s == "" then 0 else |member| + QuotedLength(s)
  }

  /** The length of the report as one JSON object; empty evidence, contact and consent are omitted. */
  function EncodedLength(r: Report): nat {
    |"{'reportId':"| + QuotedLength(r.reportId)
    + |",'facilityId':"| + QuotedLength(r.facilityId)
    + |",'category':"| + QuotedLength(r.category)
    + |",'details':"| + QuotedLength(r.details)
    + OptionalText(",'evidenceUrl':", r.evidenceUrl)
    + OptionalText(",'contact':", r.contact)
    + (if r.contactConsent then |",'contactConsent':true"| else 0)
    + |",'receivedAt':"| + TIME_LENGTH
    + |",'deleteAfter':"| + TIME_LENGTH
    + |"}"|
  }

  // ---------- submissions ----------

  const RETENTION_DAYS := 90
  const DAY_SECONDS := 86400
  const MAX_DETAILS_RUNES := 1000
  const MIN_DETAILS_RUNES := 10
  const MAX_URL_LENGTH := 500
  const MAX_CONTACT_RUNES := 254

  datatype Submission = Submission(
    facilityId: string,
    category: string,
    details: string,
    evidenceUrl: string,
    contact: string,
    contactConsent: bool)

  datatype InvalidField = BadFacilityId | BadCategory | BadDetails | BadEvidenceUrl | BadContact

  predicate FacilityIdPattern(id: string) {
    1 <= |id| <= 64 && id[0] != '-' && forall c | c in id :: IsPlain(c)
  }

  predicate ValidCategory(category: string) {
    category in ["hours", "price", "rules", "closure", "access", "other"]
  }

  /** The parsers of the standard library: an absolute HTTPS URL with a host, a bare mail address. */
  datatype Parsers = Parsers(isHttpsUrl: string -> bool, isMailAddress: string -> bool)

  function NormalizeSubmission(raw: Submission, parsers: Parsers): Result<Submission, InvalidField> {
    var s := raw.(facilityId := Text.TrimSpace(raw.facilityId), details := Text.TrimSpace(raw.details),
                  evidenceUrl := Text.TrimSpace(raw.evidenceUrl), contact := Text.TrimSpace(raw.contact));
    if !FacilityIdPattern(s.facilityId) then Failure(BadFacilityId)
    else if !ValidCategory(s.category) then Failure(BadCategory)
    else if |s.details| < MIN_DETAILS_RUNES || |s.details| > MAX_DETAILS_RUNES || '\0' in s.details then Failure(BadDetails)
    else if s.evidenceUrl != "" && (ByteLength(s.evidenceUrl) > MAX_URL_LENGTH || !parsers.isHttpsUrl(s.evidenceUrl)) then
      Failure(BadEvidenceUrl)
    else if s.contact != "" then
      if |s.contact| > MAX_CONTACT_RUNES || !s.contactConsent || !parsers.isMailAddress(s.contact) then Failure(BadContact)
      else Success(s)
    else Success(s.(contactConsent := false))
  }

  /** What an accepted submission looks like: trimmed, bounded, consent exactly where there is a contact. */
  predicate Normal(s: Submission) {
    && FacilityIdPattern(s.facilityId) && ValidCategory(s.category)
    && MIN_DETAILS_RUNES <= |s.details| <= MAX_DETAILS_RUNES && '\0' !in s.details
    && ByteLength(s.evidenceUrl) <= MAX_URL_LENGTH && |s.contact| <= MAX_CONTACT_RUNES
    && (s.contactConsent <==> s.contact != "")
    && Text.TrimSpace(s.facilityId) == s.facilityId && Text.TrimSpace(s.details) == s.details
    && Text.TrimSpace(s.evidenceUrl) == s.evidenceUrl && Text.TrimSpace(s.contact) == s.contact
  }

  lemma AcceptedIsNormal(raw: Submission, parsers: Parsers)
    requires NormalizeSubmission(raw, parsers).Success?
    ensures Normal(NormalizeSubmission(raw, parsers).value)
  {
    Text.TrimSpaceIsTrimmed(raw.facilityId);
    Text.TrimSpaceIsTrimmed(raw.details);
    Text.TrimSpaceIsTrimmed(raw.evidenceUrl);
    Text.TrimSpaceIsTrimmed(raw.contact);
    hide Text.TrimSpace, FacilityIdPattern, ValidCategory;
  }

  /** Exactly which submissions are accepted. */
  lemma AcceptedIff(raw: Submission, parsers: Parsers)
    ensures var id, details := Text.TrimSpace(raw.facilityId), Text.TrimSpace(raw.details);
            var url, contact := Text.TrimSpace(raw.evidenceUrl), Text.TrimSpace(raw.contact);
            NormalizeSubmission(raw, parsers).Success?
            <==>
            && FacilityIdPattern(id)
            && raw.category in {"hours", "price", "rules", "closure", "access", "other"}
            && 10 <= |details| <= 1000 && '\0' !in details
            && (url == "" || (ByteLength(url) <= 500 && parsers.isHttpsUrl(url)))
            && (contact == "" || (|contact| <= 254 && raw.contactConsent && parsers.isMailAddress(contact)))
  {
    hide Text.TrimSpace, FacilityIdPattern, ByteLength;
  }

  /** Submitting what was accepted is accepted again, unchanged. */
  lemma NormalizationIsIdempotent(raw: Submission, parsers: Parsers)
    requires NormalizeSubmission(raw, parsers).Success?
    ensures NormalizeSubmission(NormalizeSubmission(raw, parsers).value, parsers) == NormalizeSubmission(raw, parsers)
  {
    Text.TrimSpaceIsTrimmed(raw.facilityId);
    Text.TrimSpaceIsTrimmed(raw.details);
    Text.TrimSpaceIsTrimmed(raw.evidenceUrl);
    Text.TrimSpaceIsTrimmed(raw.contact);
    hide Text.TrimSpace, FacilityIdPattern, ValidCategory, ByteLength;
  }

  /** The report the service stores for an accepted submission. */
  function ReportOf(s: Submission, reportId: string, receivedAt: int): Report {
    Report(reportId, s.facilityId, s.category, s.details, s.evidenceUrl, s.contact, s.contactConsent,
           receivedAt, Some(receivedAt + RETENTION_DAYS * DAY_SECONDS))
  }

  /** The report keeps the submission field by field, trimmed, with its ID and time; it is deleted 90 days later. */
  ghost predicate Records(r: Report, raw: Submission, reportId: string, receivedAt: int) {
    && r.reportId == reportId && r.receivedAt == receivedAt && r.deleteAfter == Some(receivedAt + 90 * 86400)
    && r.category == raw.category
    && Text.IsCore(r.facilityId, raw.facilityId) && Text.IsCore(r.details, raw.details)
    && Text.IsCore(r.evidenceUrl, raw.evidenceUrl) && Text.IsCore(r.contact, raw.contact)
    && (r.contactConsent <==> r.contact != "")
  }

  lemma ReportRecords(raw: Submission, parsers: Parsers, reportId: string, receivedAt: int)
    requires NormalizeSubmission(raw, parsers).Success?
    ensures Records(ReportOf(NormalizeSubmission(raw, parsers).value, reportId, receivedAt), raw, reportId, receivedAt)
  {
    Text.TrimSpaceIsCore(raw.facilityId);
    Text.TrimSpaceIsCore(raw.details);
    Text.TrimSpaceIsCore(raw.evidenceUrl);
    Text.TrimSpaceIsCore(raw.contact);
    hide Text.TrimSpace, Text.IsCore, FacilityIdPattern, ValidCategory, ByteLength;
  }

  /** "COR-" and 32 hexadecimal digits. */
  predicate IsReportId(id: string) {
    |id| == 36 && forall c | c in id :: IsPlain(c)
  }

  lemma CategoryIsShort(category: string)
    requires ValidCategory(category)
    ensures EscapedBytes(category) <= 42
  {
    SixBytesARune(category);
  }

  /** Every accepted submission encodes well below the 16384-byte line limit. */
  lemma AcceptedFits(s: Submission, reportId: string, receivedAt: int)
    requires Normal(s) && IsReportId(reportId)
    ensures EncodedLength(ReportOf(s, reportId, receivedAt)) < 11000
  {
    PlainTextIsUnescaped(reportId);
    PlainTextIsUnescaped(s.facilityId);
    CategoryIsShort(s.category);
    SixBytesARune(s.details);
    SixBytesARune(s.evidenceUrl);
    SixBytesARune(s.contact);
    hide EscapedBytes, ByteLength, Text.TrimSpace;
  }
}

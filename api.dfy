/**
 * The two POST handlers of the markdown-to-PDF backend (`api/index.py`):
 * `POST /api/convert` and `POST /api/certificate`, as pure functions from a
 * parsed request to either a PDF response or an HTTP error.
 *
 * The libraries the handlers call (the `markdown` converter, SHA-256 from
 * `hashlib`, and `xhtml2pdf`'s `pisa.CreatePDF`) are function-valued fields of
 * `Libraries`; the two HTML templates are their literal text around the
 * placeholders, held by `Templates`.
 */
module Api {
  import opened PyStr

  newtype byte = x: int | 0 <= x < 256

  datatype Option<T> = None | Some(value: T)

  // ---------------------------------------------------------------------------
  // Requests (the pydantic models)
  // ---------------------------------------------------------------------------

  /** `MarkdownRequest`: the body of `POST /api/convert`. */
  datatype MarkdownRequest = MarkdownRequest(markdown: string, filename: string)

  /** `CertificateRequest`: the body of `POST /api/certificate`. */
  datatype CertificateRequest = CertificateRequest(
    participantName: string,
    courseName: string,
    completionDate: string,
    instructorName: string)

  const DefaultFilename: string := "document.pdf"
  const DefaultInstructor: string := "IntelliForge AI Team"

  /** A `MarkdownRequest` as pydantic builds it: an absent `filename` takes its default. */
  function NewMarkdownRequest(markdown: string, filename: Option<string>): (req: MarkdownRequest)
    ensures req.markdown == markdown
    ensures filename.Some? ==> req.filename == filename.value
    ensures filename.None? ==> req.filename == "document.pdf"
  {
    MarkdownRequest(markdown, if filename.Some? then filename.value else DefaultFilename)
  }

  /** A `CertificateRequest` as pydantic builds it: an absent `instructor_name` takes its default. */
  function NewCertificateRequest(participantName: string, courseName: string, completionDate: string,
                                 instructorName: Option<string>): (req: CertificateRequest)
    ensures req.participantName == participantName && req.courseName == courseName
    ensures req.completionDate == completionDate
    ensures instructorName.Some? ==> req.instructorName == instructorName.value
    ensures instructorName.None? ==> req.instructorName == "IntelliForge AI Team"
  {
    CertificateRequest(participantName, courseName, completionDate,
                       if instructorName.Some? then instructorName.value else DefaultInstructor)
  }

  // ---------------------------------------------------------------------------
  // Courses
  // ---------------------------------------------------------------------------

  /** `COURSES`: the closed list of course names a certificate may name. */
  const Courses: seq<string> := [
    "AI Product Development Fundamentals",
    "Building AI-Powered Applications",
    "Prompt Engineering & LLM Integration",
    "Full-Stack AI Development",
    "AI Product Design & UX",
    "Digital Profile Creation",
    "Deploying AI Solutions"
  ]

  /**
   * `course_name in COURSES`: exact string equality with one of the entries.
   * No listed course begins or ends with whitespace, and the course name is
   * not stripped, so a padded course name is unknown.
   */
  predicate KnownCourse(courseName: string)
    ensures KnownCourse(courseName) ==>
      courseName != [] && !IsSpace(courseName[0]) && !IsSpace(courseName[|courseName| - 1])
  {
    courseName in Courses
  }

  // ---------------------------------------------------------------------------
  // Templates
  // ---------------------------------------------------------------------------

  /** `HTML_TEMPLATE` after `.format`: the literal text before and after `{content}`. */
  datatype DocumentTemplate = DocumentTemplate(head: string, tail: string) {

    /** `HTML_TEMPLATE.format(content=content)`: the fragment goes in verbatim between head and tail. */
    function Format(content: string): (html: string)
      ensures |html| == |head| + |content| + |tail|
      ensures html[..|head|] == head
      ensures html[|head|..|head| + |content|] == content
      ensures html[|head| + |content|..] == tail
    {
      head + content + tail
    }

    /** Reads the fragment back out of a filled document. */
    function Content(html: string): (content: Option<string>) {
      if |head| + |tail| <= |html| && html[..|head|] == head && html[|html| - |tail|..] == tail
      then Some(html[|head|..|html| - |tail|])
      else None
    }
  }

  /** The values `CERTIFICATE_TEMPLATE.format` substitutes, by placeholder. */
  datatype CertificateFields = CertificateFields(
    participantName: string,
    courseName: string,
    completionDate: string,
    instructorName: string,
    certificateId: string)

  /**
   * `CERTIFICATE_TEMPLATE` after `.format`: the literal text around its five
   * placeholders, which occur in the order `{participant_name}`,
   * `{course_name}`, `{completion_date}`, `{instructor_name}`,
   * `{certificate_id}`.
   */
  datatype CertificateTemplate = CertificateTemplate(
    beforeName: string,
    beforeCourse: string,
    beforeDate: string,
    beforeInstructor: string,
    beforeId: string,
    after: string)
  {
    /**
     * `CERTIFICATE_TEMPLATE.format(...)`: every value goes in verbatim, with no
     * HTML escaping, so the result is exactly as long as the literal text and
     * the five values together; it starts with the text before the name.
     */
    function Format(f: CertificateFields): (html: string)
      ensures |html| == |beforeName| + |beforeCourse| + |beforeDate| + |beforeInstructor| + |beforeId| + |after|
                        + |f.participantName| + |f.courseName| + |f.completionDate| + |f.instructorName|
                        + |f.certificateId|
      ensures html[..|beforeName|] == beforeName
      ensures html[|beforeName|..|beforeName| + |f.participantName|] == f.participantName
    {
      var texts := [beforeName, beforeCourse, beforeDate, beforeInstructor, beforeId, after];
      var values := [f.participantName, f.courseName, f.completionDate, f.instructorName, f.certificateId];
      assert TotalLength(texts[5..]) == |after| by { assert texts[5..][1..] == []; }
      assert TotalLength(texts[4..]) == |beforeId| + TotalLength(texts[5..]) by { assert texts[4..][1..] == texts[5..]; }
      assert TotalLength(texts[3..]) == |beforeInstructor| + TotalLength(texts[4..]) by { assert texts[3..][1..] == texts[4..]; }
      assert TotalLength(texts[2..]) == |beforeDate| + TotalLength(texts[3..]) by { assert texts[2..][1..] == texts[3..]; }
      assert TotalLength(texts[1..]) == |beforeCourse| + TotalLength(texts[2..]) by { assert texts[1..][1..] == texts[2..]; }
      assert TotalLength(values[4..]) == |f.certificateId| by { assert values[4..][1..] == []; }
      assert TotalLength(values[3..]) == |f.instructorName| + TotalLength(values[4..]) by { assert values[3..][1..] == values[4..]; }
      assert TotalLength(values[2..]) == |f.completionDate| + TotalLength(values[3..]) by { assert values[2..][1..] == values[3..]; }
      assert TotalLength(values[1..]) == |f.courseName| + TotalLength(values[2..]) by { assert values[1..][1..] == values[2..]; }
      Interleave(texts, values)
    }
  }

  /** The summed lengths of `ss`. */
  function TotalLength(ss: seq<string>): nat {
    if ss == [] then 0 else |ss[0]| + TotalLength(ss[1..])
  }

  /**
   * `str.format` on a template whose literal pieces are `texts`: each value
   * goes between two pieces. Nothing is added, dropped or escaped: the result
   * is as long as all pieces and values together, and begins with the first
   * piece.
   */
  function Interleave(texts: seq<string>, values: seq<string>): (r: string)
    requires |texts| == |values| + 1
    ensures |r| == TotalLength(texts) + TotalLength(values)
    ensures r[..|texts[0]|] == texts[0]
    ensures values != [] ==> r[|texts[0]|..|texts[0]| + |values[0]|] == values[0]
    decreases values
  {
    if values == [] then texts[0] else texts[0] + (values[0] + Interleave(texts[1..], values[1..]))
  }

  datatype Templates = Templates(document: DocumentTemplate, certificate: CertificateTemplate)

  // ---------------------------------------------------------------------------
  // Libraries
  // ---------------------------------------------------------------------------

  predicate IsLowerHexDigit(c: char) {
    '0' <= c <= '9' || 'a' <= c <= 'f'
  }

  predicate IsUpperHexDigit(c: char) {
    '0' <= c <= '9' || 'A' <= c <= 'F'
  }

  /** What `hexdigest()` of a SHA-256 hash returns: 64 lower-case hexadecimal digits. */
  type HexDigest = s: string | |s| == 64 && forall i | 0 <= i < |s| :: IsLowerHexDigit(s[i])
    witness seq(64, _ => '0')

  /** How `pisa.CreatePDF` ends: bytes in the buffer, its `err` flag set, or an exception with its message. */
  datatype PdfStatus = Written(pdf: seq<byte>) | ErrFlag | Raised(message: string)

  /**
   * The calls the handlers make into other code: `markdown.Markdown(...).convert`,
   * `hashlib.sha256(s.encode()).hexdigest()` and `pisa.CreatePDF` with its buffer.
   */
  datatype Libraries = Libraries(
    markdownToHtml: string -> string,
    sha256Hex: string -> HexDigest,
    createPdf: string -> PdfStatus)

  // ---------------------------------------------------------------------------
  // Responses and errors
  // ---------------------------------------------------------------------------

  /** A FastAPI `Response`: media type, explicit headers and body. */
  datatype Response = Response(mediaType: string, headers: map<string, string>, body: seq<byte>)

  /** An `HTTPException`, which FastAPI turns into `{"detail": ...}` with that status. */
  datatype HttpError = HttpError(status: nat, detail: string)

  /** An exception raised inside a handler's `try` block. */
  datatype Exception = Http(error: HttpError) | Other(message: string)

  /** How a handler's `try` block ends. */
  datatype Attempt = Done(response: Response) | Throw(exception: Exception)

  /** What a handler gives FastAPI: a response, or an `HTTPException`. */
  datatype Reply = Ok(response: Response) | Err(error: HttpError)

  const PdfMediaType: string := "application/pdf"
  const DispositionPrefix: string := "attachment; filename=\""

  /** The `Content-Disposition` value `attachment; filename="<filename>"`. */
  function Attachment(filename: string): string {
    DispositionPrefix + filename + "\""
  }

  /** The filename an `attachment; filename="..."` value carries, taken between the fixed prefix and the last quote. */
  function DispositionFilename(value: string): Option<string> {
    if |DispositionPrefix| < |value| && value[..|DispositionPrefix|] == DispositionPrefix && value[|value| - 1] == '"'
    then Some(value[|DispositionPrefix|..|value| - 1])
    else None
  }

  /**
   * `resp` is what both handlers return on success for `pdf` and `filename`:
   * PDF media type, the bytes as body, exactly the two explicit headers, a
   * `Content-Disposition` naming `filename` and a `Content-Length` whose
   * decimal digits read back as the body's length.
   */
  predicate DescribesPdf(resp: Response, pdf: seq<byte>, filename: string) {
    && resp.mediaType == PdfMediaType
    && resp.body == pdf
    && resp.headers.Keys == {"Content-Disposition", "Content-Length"}
    && resp.headers["Content-Disposition"] == Attachment(filename)
    && resp.headers["Content-Length"] != []
    && (forall i | 0 <= i < |resp.headers["Content-Length"]| :: IsDigit(resp.headers["Content-Length"][i]))
    && (resp.headers["Content-Length"][0] == '0' ==> resp.headers["Content-Length"] == "0")
    && DecimalValue(resp.headers["Content-Length"]) == |pdf|
  }

  /** The `Response(content=pdf, media_type="application/pdf", headers={...})` both handlers build. */
  function PdfResponse(pdf: seq<byte>, filename: string): (r: Response)
    ensures DescribesPdf(r, pdf, filename)
  {
    DecimalRoundTrip(|pdf|);
    Response(PdfMediaType, map["Content-Disposition" := Attachment(filename), "Content-Length" := Decimal(|pdf|)], pdf)
  }

  /**
   * The value is the fixed prefix, the filename verbatim and unescaped, and a
   * closing quote; taking off the prefix and the final quote gives the
   * filename back. A reader of HTTP quoted-strings stops earlier when the
   * filename holds `"` (see `QuotedFilename`).
   */
  lemma AttachmentRoundTrip(filename: string)
    ensures DispositionFilename(Attachment(filename)) == Some(filename)
  {
    var value := Attachment(filename);
    assert value[..|DispositionPrefix|] == DispositionPrefix;
    assert value[|DispositionPrefix|..|value| - 1] == filename;
  }

  /**
   * The text of an HTTP quoted-string (section 5.6.4 of RFC 9110) once its
   * opening quote is consumed: the characters up to the first unescaped `"`,
   * where a backslash takes the next character literally. `None` when no closing
   * quote comes.
   */
  function QuotedText(s: string): (r: Option<string>)
    ensures r.Some? ==> |r.value| < |s|
    decreases |s|
  {
    if s == [] then None
    else if s[0] == '"' then Some([])
    else if s[0] == '\\' then
      if |s| == 1 then None
      else match QuotedText(s[2..]) case None => None case Some(t) => Some([s[1]] + t)
    else match QuotedText(s[1..]) case None => None case Some(t) => Some([s[0]] + t)
  }

  /** The filename a client reading `filename` as a quoted-string gets from an `attachment; filename="..."` value. */
  function QuotedFilename(value: string): Option<string> {
    if |DispositionPrefix| <= |value| && value[..|DispositionPrefix|] == DispositionPrefix
    then QuotedText(value[|DispositionPrefix|..])
    else None
  }

  // ---------------------------------------------------------------------------
  // POST /api/convert
  // ---------------------------------------------------------------------------

  const ConvertFailurePrefix: string := "Failed to convert markdown to PDF: "
  const ConvertPdfError: string := "Error generating PDF with xhtml2pdf"

  /** The HTML handed to the renderer: the converted markdown inside `HTML_TEMPLATE`. */
  function DocumentHtml(lib: Libraries, tpl: Templates, req: MarkdownRequest): (html: string)
    ensures var converted := lib.markdownToHtml(req.markdown);
            && |html| == |tpl.document.head| + |converted| + |tpl.document.tail|
            && html[|tpl.document.head|..|tpl.document.head| + |converted|] == converted
  {
    tpl.document.Format(lib.markdownToHtml(req.markdown))
  }

  /** The `try` block of `convert_markdown_to_pdf`; it raises only plain exceptions. */
  function ConvertAttempt(lib: Libraries, tpl: Templates, req: MarkdownRequest): (a: Attempt)
    ensures a.Throw? ==> a.exception.Other?
  {
    match lib.createPdf(DocumentHtml(lib, tpl, req))
    case Raised(message) => Throw(Other(message))
    case ErrFlag => Throw(Other(ConvertPdfError))
    case Written(pdf) => Done(PdfResponse(pdf, req.filename))
  }

  /**
   * `convert_markdown_to_pdf`: any failure becomes a 500 whose detail names
   * the failure; there is no client error, not even for empty markdown.
   */
  function ConvertMarkdownToPdf(lib: Libraries, tpl: Templates, req: MarkdownRequest): (r: Reply)
    ensures r.Ok? <==> lib.createPdf(DocumentHtml(lib, tpl, req)).Written?
    ensures r.Ok? ==> DescribesPdf(r.response, lib.createPdf(DocumentHtml(lib, tpl, req)).pdf, req.filename)
    ensures r.Err? ==>
      && r.error.status == 500
      && |ConvertFailurePrefix| <= |r.error.detail|
      && r.error.detail[..|ConvertFailurePrefix|] == ConvertFailurePrefix
    ensures lib.createPdf(DocumentHtml(lib, tpl, req)).ErrFlag? ==>
      r == Err(HttpError(500, ConvertFailurePrefix + ConvertPdfError))
    ensures lib.createPdf(DocumentHtml(lib, tpl, req)).Raised? ==>
      r == Err(HttpError(500, ConvertFailurePrefix + lib.createPdf(DocumentHtml(lib, tpl, req)).message))
  {
    var a := ConvertAttempt(lib, tpl, req);
    if a.Done? then Ok(a.response)
    else Err(HttpError(500, ConvertFailurePrefix + a.exception.message))
  }

  // ---------------------------------------------------------------------------
  // POST /api/certificate
  // ---------------------------------------------------------------------------

  const UnknownCoursePrefix: string := "Unknown course: "
  const NameRequired: string := "Participant name is required"
  const CertificateFailurePrefix: string := "Failed to generate certificate: "
  const CertificatePdfError: string := "Error generating certificate PDF"
  const IdPrefix: string := "IF-"

  /** The string hashed for the certificate ID: the unstripped name, the course and the date, joined by `-`. */
  function HashInput(req: CertificateRequest): (raw: string)
    ensures |raw| == |req.participantName| + 1 + |req.courseName| + 1 + |req.completionDate|
    ensures raw[..|req.participantName|] == req.participantName && raw[|req.participantName|] == '-'
    ensures raw[|req.participantName| + 1..|req.participantName| + 1 + |req.courseName|] == req.courseName
    ensures raw[|raw| - |req.completionDate| - 1] == '-' && raw[|raw| - |req.completionDate|..] == req.completionDate
  {
    req.participantName + "-" + req.courseName + "-" + req.completionDate
  }

  /**
   * `"IF-" + sha256(raw).hexdigest()[:12].upper()`: fifteen characters, the
   * prefix and then twelve upper-case hexadecimal digits, which are the
   * first twelve of the digest.
   */
  function CertificateId(lib: Libraries, req: CertificateRequest): (id: string)
    ensures |id| == 15 && id[..3] == "IF-"
    ensures forall i | 3 <= i < 15 :: IsUpperHexDigit(id[i])
    ensures forall i | 0 <= i < 12 :: UpperChar(lib.sha256Hex(HashInput(req))[i]) == id[3 + i]
  {
    var digest := lib.sha256Hex(HashInput(req));
    IdPrefix + Upper(digest[..12])
  }

  /**
   * `f"Certificate_{safe_name}.pdf"` with `safe_name` the stripped name with
   * every space (U+0020, and only it) replaced by `_`.
   */
  function CertificateFilename(participantName: string): (f: string)
    ensures |f| == 12 + |Strip(participantName)| + 4
    ensures f[..12] == "Certificate_" && f[|f| - 4..] == ".pdf"
    ensures forall i | 0 <= i < |Strip(participantName)| ::
      f[12 + i] == (if Strip(participantName)[i] == ' ' then '_' else Strip(participantName)[i])
    ensures ' ' !in f
  {
    var safeName := ReplaceChar(Strip(participantName), ' ', '_');
    var f := "Certificate_" + safeName + ".pdf";
    assert forall i | 0 <= i < |f| :: f[i] == (if i < 12 then "Certificate_"[i] else if i < 12 + |safeName| then safeName[i - 12] else ".pdf"[i - 12 - |safeName|]);
    f
  }

  /** The values `generate_certificate` substitutes into its template. */
  function CertificateFieldsOf(lib: Libraries, req: CertificateRequest): (f: CertificateFields)
    ensures f.participantName == Strip(req.participantName)
    ensures f.courseName == req.courseName && f.completionDate == req.completionDate
    ensures f.instructorName == req.instructorName
    ensures f.certificateId == CertificateId(lib, req)
  {
    CertificateFields(Strip(req.participantName), req.courseName, req.completionDate, req.instructorName,
                      CertificateId(lib, req))
  }

  /** The HTML handed to the renderer for a certificate. */
  function CertificateHtml(lib: Libraries, tpl: Templates, req: CertificateRequest): (html: string)
    ensures var t, name := tpl.certificate, Strip(req.participantName);
            && |t.beforeName| + |name| <= |html|
            && html[..|t.beforeName|] == t.beforeName && html[|t.beforeName|..|t.beforeName| + |name|] == name
  {
    tpl.certificate.Format(CertificateFieldsOf(lib, req))
  }

  /**
   * The `try` block of `generate_certificate`: it raises an `HTTPException`
   * (always a 400) exactly when a check fails, and otherwise either returns
   * the PDF response or raises a plain exception.
   */
  function CertificateAttempt(lib: Libraries, tpl: Templates, req: CertificateRequest): (a: Attempt)
    ensures (a.Throw? && a.exception.Http?) <==> !ValidCertificateRequest(req)
    ensures a.Throw? && a.exception.Http? ==> a.exception.error.status == 400
    ensures a.Done? <==> ValidCertificateRequest(req) && lib.createPdf(CertificateHtml(lib, tpl, req)).Written?
  {
    if req.courseName !in Courses then
      Throw(Http(HttpError(400, UnknownCoursePrefix + req.courseName)))
    else if Strip(req.participantName) == [] then
      Throw(Http(HttpError(400, NameRequired)))
    else
      match lib.createPdf(CertificateHtml(lib, tpl, req))
      case Raised(message) => Throw(Other(message))
      case ErrFlag => Throw(Other(CertificatePdfError))
      case Written(pdf) => Done(PdfResponse(pdf, CertificateFilename(req.participantName)))
  }

  /** The request passes both checks of `generate_certificate`. */
  predicate ValidCertificateRequest(req: CertificateRequest)
    ensures ValidCertificateRequest(req) <==> req.courseName in Courses && Strip(req.participantName) != []
  {
    KnownCourse(req.courseName) && !AllSpace(req.participantName)
  }

  /**
   * `generate_certificate`: an `HTTPException` raised by the checks passes
   * through unchanged (`except HTTPException: raise`); any other exception
   * becomes a 500 whose detail names it.
   */
  function GenerateCertificate(lib: Libraries, tpl: Templates, req: CertificateRequest): (r: Reply)
    // the course check comes first: its error wins whatever the name is
    ensures !KnownCourse(req.courseName) ==> r == Err(HttpError(400, UnknownCoursePrefix + req.courseName))
    ensures KnownCourse(req.courseName) && AllSpace(req.participantName) ==> r == Err(HttpError(400, NameRequired))
    ensures r.Err? ==> (r.error.status == 400 <==> !ValidCertificateRequest(req))
    ensures r.Err? ==> r.error.status == 400 || r.error.status == 500
    ensures r.Ok? <==> ValidCertificateRequest(req) && lib.createPdf(CertificateHtml(lib, tpl, req)).Written?
    ensures r.Ok? ==>
      DescribesPdf(r.response, lib.createPdf(CertificateHtml(lib, tpl, req)).pdf, CertificateFilename(req.participantName))
    ensures ValidCertificateRequest(req) && lib.createPdf(CertificateHtml(lib, tpl, req)).ErrFlag? ==>
      r == Err(HttpError(500, CertificateFailurePrefix + CertificatePdfError))
    ensures ValidCertificateRequest(req) && lib.createPdf(CertificateHtml(lib, tpl, req)).Raised? ==>
      r == Err(HttpError(500, CertificateFailurePrefix + lib.createPdf(CertificateHtml(lib, tpl, req)).message))
  {
    match CertificateAttempt(lib, tpl, req)
    case Done(response) => Ok(response)
    case Throw(Http(error)) => Err(error)
    case Throw(Other(message)) => Err(HttpError(500, CertificateFailurePrefix + message))
  }
}

# Markdown-to-PDF backend: request handling, modelled in Dafny

This project models the decision logic of the two POST handlers of the
markdown-to-PDF backend (`api/index.py`):

- `POST /api/convert` (`convert_markdown_to_pdf`). It converts the markdown
  to HTML, puts the fragment into the document template and renders a PDF.
  It returns the PDF with `Content-Disposition` naming the request's
  `filename` (default `document.pdf`) and a `Content-Length`. Every failure
  becomes a 500.
- `POST /api/certificate` (`generate_certificate`). It checks the course
  against the closed `COURSES` list and then rejects a blank participant
  name, both with 400. It derives the certificate ID `IF-` + 12 upper-case
  hex digits of a SHA-256 digest and fills the certificate template. It
  renders the PDF and offers it as `Certificate_<name>.pdf`. Its own 400s
  pass through unchanged; any other failure becomes a 500.

Each handler is a pure function from a parsed request to a `Reply`: either
a `Response` (media type, headers, body) or an `HttpError` (status,
detail). A handler's `try` block is modelled separately as an `Attempt`,
which ends in a response or a raised exception. The handler function then
applies the `except` clauses to that exception.

The libraries the handlers call are fields of a `Libraries` value, passed
in as a parameter:

- the `markdown` converter, as a total function from string to string;
- `hashlib.sha256(...).hexdigest()`, as a function whose result type
  `HexDigest` holds exactly 64 lower-case hex digits;
- `pisa.CreatePDF` with its `BytesIO` buffer, as a function returning the
  bytes written, the `err` flag, or an exception message.

The two HTML templates are modelled as their literal text around the
placeholders (`Templates`). Python's `str.strip`, one-character
`str.replace`, ASCII `str.upper`, `str(n)` and `int(s)` are modelled in
module `PyStr`. `strip` uses CPython's forward and backward scans and the
full `str.isspace` character set.

Files:

- `pystr.dfy`: module `PyStr`, the Python string operations.
- `api.dfy`: module `Api`, the request models, `COURSES`, the templates,
  the libraries and both handlers.
- `api_properties.dfy`: module `ApiProperties`, lemmas that relate several
  calls or that instantiate the handlers on sample inputs.

Behaviour one might expect of such a service but that the code does not
have, and that the model therefore does not have either:

- `/api/convert` does not reject empty markdown. The only 4xx is pydantic's
  422 for a missing field, which is not modelled. Empty markdown is
  rendered like any other text, and `ConvertMarkdownToPdf` never returns a
  4xx.
- Renderer failures do not get a generic message. The handlers put the
  exception's text into `detail` after a fixed prefix.
- A successful conversion is not guaranteed a non-empty body. The code
  passes on whatever bytes the renderer wrote.
- Only U+0020 spaces in the participant name are replaced by `_`. Tabs and
  other inner whitespace stay in the filename.
- Only the course and the stripped name are validated. The date and the
  instructor are accepted as given, including empty ones.
- The filename in `Content-Disposition` is not escaped. A `"` in it ends the
  quoted-string early for a standard reader (`QuoteInFilenameCutsIt`).

## Model

| member | source | states |
|---|---|---|
| `PyStr.IsSpace` | api/index.py:563 | The `str.isspace` set `strip` uses: it includes space, tab, newline, carriage return, no-break space and ideographic space, and no ASCII letter or digit, `_` or `-`. `Strip` states what `strip` does with it |
| `PyStr.SkipSpaces` | api/index.py:563 | The forward scan of `strip` stops at the first non-whitespace index, and everything it skipped is whitespace |
| `PyStr.BackSpaces` | api/index.py:563 | The backward scan of `strip` stops just after the last non-whitespace character of the range, and everything it dropped is whitespace |
| `PyStr.Strip` | api/index.py:563-564 | `name.strip()` is a slice of the name with only whitespace before and after it. It has no whitespace at either end. It is empty exactly when the name is all whitespace, which is the `not name.strip()` test |
| `PyStr.StripTrimmed` | api/index.py:570 | Text with no whitespace at either end is returned unchanged by `strip` |
| `PyStr.StripIdempotent` | api/index.py:563 | `strip` is idempotent: stripping its result again changes nothing |
| `PyStr.StripLeadingSpace` | api/index.py:570 | A leading whitespace character does not change `strip`'s result |
| `PyStr.ReplaceChar` | api/index.py:589 | `replace(" ", "_")` keeps the length and every other character (tabs included). It turns each space into `_` and leaves no space behind |
| `PyStr.Upper` | api/index.py:567 | `.upper()` keeps the length and upper-cases each ASCII letter in place |
| `PyStr.Decimal` | api/index.py:264 | `str(len(pdf_bytes))` is a non-empty string of decimal digits with no leading zero |
| `PyStr.DecimalRoundTrip` | api/index.py:599 | Reading `str(n)` back as a decimal number gives `n` |
| `Api.PdfResponse` | api/index.py:259-265 | The success response has media type `application/pdf`, the PDF as body and exactly two explicit headers. `Content-Disposition` is `attachment; filename="<filename>"`, and `Content-Length` is `str(len(pdf))`: a non-empty digit string with no leading zero (other than `0` itself) whose value is the body length |
| `Api.AttachmentRoundTrip` | api/index.py:263 | The `Content-Disposition` value is the fixed prefix, then the filename verbatim and unescaped, then a closing quote: taking off the prefix and the final quote gives the filename back |
| `ApiProperties.AttachmentQuotedRoundTrip` | api/index.py:263 | A filename without `"` or backslash is also exactly what a reader of HTTP quoted-strings takes from the header |
| `ApiProperties.QuoteInFilenameCutsIt` | api/index.py:263 | A filename holding `"` is written as it is, so a quoted-string reader takes only the part before that quote, while the last-quote reading still gives the whole name |
| `ApiProperties.QuotedNameCertificate` | api/index.py:589-598 | A participant named `Jane"Doe` gets `Certificate_Jane"Doe.pdf`, from which a quoted-string reader takes only `Certificate_Jane` |
| `Api.NewMarkdownRequest` | api/index.py:39-41 | The markdown is kept as given. A given `filename` is kept as given, and an absent one becomes `document.pdf` |
| `Api.NewCertificateRequest` | api/index.py:44-48 | Name, course and date are kept as given. A given `instructor_name` is kept, and an absent one becomes `IntelliForge AI Team` |
| `Api.KnownCourse` | api/index.py:300-308 | A course is known exactly when it equals one of the seven `COURSES` entries. None of them begins or ends with whitespace |
| `ApiProperties.PaddedCourseUnknown` | api/index.py:557 | The course is compared as given, without stripping, so a listed course with whitespace added at either end is unknown |
| `Api.DocumentTemplate.Format` | api/index.py:238 | `HTML_TEMPLATE.format(content=...)` puts the fragment verbatim between the template's head and tail, and adds nothing else |
| `Api.Interleave` | api/index.py:569-575 | `format` adds, drops and escapes nothing: the result is exactly as long as the literal pieces and the values together. It starts with the first piece, and the first value follows it directly |
| `ApiProperties.InterleaveSlot` | api/index.py:569-575 | Value `j` sits verbatim at placeholder `j`: right after the first `j + 1` literal pieces and the `j` values before it |
| `ApiProperties.InterleaveText` | api/index.py:569-575 | Literal piece `j` stays verbatim in place: right after the `j` pieces and `j` values before it |
| `Api.CertificateTemplate.Format` | api/index.py:569-575 | The filled certificate is exactly as long as the template text and the five values together. It starts with the text before the name, and the participant name follows it directly |
| `ApiProperties.CertificateFormatSpelledOut` | api/index.py:569-575 | The filled certificate is the template text with `participant_name`, `course_name`, `completion_date`, `instructor_name` and `certificate_id` each in its own placeholder, in template order |
| `ApiProperties.CertificateNameAndCourseSlots` | api/index.py:569-571 | The name sits right after the text before it, and the course right after the name and the text before the course, so the two keywords are not swapped |
| `ApiProperties.CertificateClosingText` | api/index.py:569-575 | The template's closing text ends the filled certificate |
| `Api.HashInput` | api/index.py:566 | The hashed string is the unstripped name, `-`, the course, `-` and the date, each verbatim. Nothing marks where a field ends, so `CertificateIdAmbiguous` can find a collision |
| `Api.ValidCertificateRequest` | api/index.py:557-564 | A request passes the checks exactly when its course is in `COURSES` and `participant_name.strip()` is non-empty. `CertificateAttempt` and `GenerateCertificate` state what each outcome gives |
| `Api.CertificateFieldsOf` | api/index.py:566-575 | The template gets the stripped name, the course, date and instructor as given, and the ID computed from the unstripped name. `HashUsesUnstrippedName` shows the two names can differ |
| `Api.CertificateHtml` | api/index.py:569-575 | The HTML handed to the renderer starts with the template text before the name, followed directly by the stripped name. `CertificateHtmlCarriesFields` places the other fields |
| `Api.CertificateAttempt` | api/index.py:556-601 | The certificate `try` block raises an `HTTPException` exactly when a check fails, and it is always a 400. It returns the PDF response exactly when both checks pass and the renderer writes bytes |
| `Api.DocumentHtml` | api/index.py:235-238 | The HTML handed to the renderer is as long as the template's head, the converted markdown and the tail together, and the converted markdown follows the head directly. `ConvertRendersConvertedMarkdown` reads it back |
| `Api.ConvertAttempt` | api/index.py:225-266 | The `try` block of the convert handler raises only plain exceptions, never an `HTTPException` |
| `Api.ConvertMarkdownToPdf` | api/index.py:214-273 | The reply succeeds exactly when the renderer writes bytes. On success it is the PDF response for the request's filename. Every failure is a 500 whose detail starts with `Failed to convert markdown to PDF: `, followed by `Error generating PDF with xhtml2pdf` for the `err` flag or by the renderer's exception text. There is no 4xx, even for empty markdown |
| `Api.CertificateId` | api/index.py:566-567 | The ID has 15 characters: `IF-` and then 12 upper-case hex digits. Those digits are the first 12 of the digest of the unstripped-name/course/date string, upper-cased, so the ID depends on nothing else (not on the instructor) |
| `Api.CertificateFilename` | api/index.py:589-590 | The filename is `Certificate_`, then the stripped name with each U+0020 replaced by `_`, then `.pdf`. It contains no U+0020 |
| `Api.GenerateCertificate` | api/index.py:551-610 | An unknown course gives 400 `Unknown course: <course>`, whatever the name is, so this check comes first. A known course with a blank name gives 400 `Participant name is required`. A 400 happens exactly when a check fails. Success happens exactly when both checks pass and the renderer writes bytes, and it yields the PDF response named by `CertificateFilename`. A renderer `err` flag gives 500 `Failed to generate certificate: Error generating certificate PDF`, and a renderer exception gives 500 with that prefix and its text. No other status occurs |
| `ApiProperties.DocumentContentRoundTrip` | api/index.py:238 | Filling the document template keeps the fragment verbatim, and it can be read back between the template's head and tail |
| `ApiProperties.ConvertRendersConvertedMarkdown` | api/index.py:235-246 | The convert handler renders exactly the converted markdown inside the document template |
| `ApiProperties.InterleaveCarries` | api/index.py:569-575 | Every value that `format` substitutes occurs unchanged in the result |
| `ApiProperties.CertificateHtmlCarriesFields` | api/index.py:569-575 | The rendered certificate HTML contains the stripped name, course, date, instructor and certificate ID exactly as given, with no HTML escaping |
| `ApiProperties.DefaultInstructorOnCertificate` | api/index.py:48 | Without `instructor_name`, the certificate HTML contains `IntelliForge AI Team` |
| `ApiProperties.ConvertDefaultFilename` | api/index.py:41 | Without `filename`, a successful conversion is offered as `document.pdf` |
| `ApiProperties.RejectedCertificateIgnoresRenderer` | api/index.py:557-564 | A request that fails either check gets the same 400 whatever the libraries and templates are, so nothing is hashed or rendered for it |
| `ApiProperties.CertificateIdAmbiguous` | api/index.py:566-567 | Two different valid requests share a certificate ID when `-<course>` moves from the date onto the name, because the `-`-joined hash input stays the same |
| `ApiProperties.HashUsesUnstrippedName` | api/index.py:566-570 | A leading whitespace character changes the hash input. It changes neither the name on the certificate nor the filename |
| `ApiProperties.FilenameOfTrimmed` | api/index.py:589-590 | For a name with no whitespace at either end, the filename is `Certificate_` + the name with spaces replaced + `.pdf` |
| `ApiProperties.JaneDoeFilename` | api/index.py:589-590 | `Jane Doe` gives `Certificate_Jane_Doe.pdf` |
| `ApiProperties.PaddedJaneDoeFilename` | api/index.py:589 | ` Jane Doe` gives the same filename as `Jane Doe` |
| `ApiProperties.TabbedNameFilename` | api/index.py:589-590 | A tab inside the name stays in the filename: `Jane\tDoe` gives `Certificate_Jane\tDoe.pdf` |
| `ApiProperties.JaneDoeCertificate` | api/index.py:551-601 | A rendered certificate for `Jane Doe` on a listed course succeeds with the PDF as body and `Certificate_Jane_Doe.pdf` as its download name |

## Left out

- Markdown to HTML conversion (`markdown.Markdown(...).convert`, api/index.py:229-235): a foreign library, modelled as an arbitrary total function.
- SHA-256 (`hashlib`, api/index.py:567): a foreign hash. The model assumes only that `hexdigest()` is 64 lower-case hex digits. UTF-8 encoding of the hash input is folded into that function. The model's strings cannot hold lone surrogates, so it does not capture the failure of `raw.encode()` on a JSON name with a lone surrogate, which in the program raises and becomes a 500.
- `pisa.CreatePDF` and the `BytesIO` buffer (api/index.py:240-254, 577-588): a foreign renderer writing into its own buffer. It is modelled as a function returning the bytes, the `err` flag, or an exception message.
- The CSS and markup of `HTML_TEMPLATE` and `CERTIFICATE_TEMPLATE` (api/index.py:52-187, 317-548): styling only. The templates are arbitrary literal text around the placeholders, given as a parameter. The `{{`/`}}` escapes are taken as already resolved.
- `PyStr.Upper`: only ASCII letters are mapped. Python's full Unicode case mapping (which can change length) is not modelled, because the handler upper-cases only hex digits.
- `PyStr.ReplaceChar`: only one-character `replace` is modelled, which is the only form the handlers use.
- Pydantic parsing of the JSON body and its 422 errors for missing or mistyped fields: framework plumbing. The model starts from parsed requests. Defaults are applied by `NewMarkdownRequest` and `NewCertificateRequest`; their contracts state the defaults, and `ConvertDefaultFilename` and `DefaultInstructorOnCertificate` carry them to the response and the certificate.
- The framework's encoding of response headers: it rejects header values that are not Latin-1 (for example a filename with CJK characters), and the handlers' `except Exception` turns that into a 500. The model's success path assumes the framework accepts the header.
- FastAPI app construction, CORS middleware, the static endpoints (`root`, `health_check`, `get_info`, `get_courses`), logging and the `uvicorn` entry point (api/index.py:17-35, 190-211, 276-297, 311-314, 613-616): configuration, constant dictionaries and I/O.
- `test_api.py`: an HTTP client that talks to a live server and writes a file. It has no logic of its own.
- The browser front end (editor state, download flow, busy flag): it is not part of `api/index.py` and is not part of this model.
- Determinism of the output: the model takes `createPdf` to be a function of the HTML alone. The real renderer stamps creation times into the PDF, so two identical requests need not get identical bytes. Isolation between requests holds in the model because every handler is a pure function of its request, libraries and templates.
- Escaping of the `Content-Disposition` filename: the program writes the filename unescaped, and so does the model (`Attachment`). A `"` or a backslash in a filename or participant name can make a standard client read a different filename, or extra header parameters (`QuoteInFilenameCutsIt`, `QuotedNameCertificate`). What the framework and clients do with such a header is not modelled.

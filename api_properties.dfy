/**
 * Properties of the two handlers that relate several calls, or a call and
 * concrete inputs: what the renderer is given, what the defaults produce, and
 * how the certificate ID and filename come out for particular names.
 */
module ApiProperties {
  import opened PyStr
  import opened Api

  /** `part` occurs in `whole` starting at index `i`. */
  predicate OccursAt(part: string, whole: string, i: nat) {
    i + |part| <= |whole| && whole[i..i + |part|] == part
  }

  /** `part` occurs somewhere in `whole`, character for character. */
  predicate Occurs(part: string, whole: string) {
    exists i | 0 <= i <= |whole| :: OccursAt(part, whole, i)
  }

  lemma OccursAtStart(b: string, c: string)
    ensures OccursAt(b, b + c, 0)
  {
    assert (b + c)[..|b|] == b;
  }

  lemma OccursAfter(b: string, a: string, c: string, k: nat)
    requires OccursAt(b, c, k)
    ensures OccursAt(b, a + c, |a| + k)
  {
    assert (a + c)[|a| + k..|a| + k + |b|] == c[k..k + |b|];
  }

  /** `HTML_TEMPLATE` keeps the fragment verbatim: it can be read back out of the filled document. */
  lemma DocumentContentRoundTrip(t: DocumentTemplate, content: string)
    ensures t.Content(t.Format(content)) == Some(content)
  {
    var html := t.Format(content);
    assert html[..|t.head|] == t.head;
    assert html[|html| - |t.tail|..] == t.tail;
    assert html[|t.head|..|html| - |t.tail|] == content;
  }

  /** `convert_markdown_to_pdf` renders exactly the converted markdown inside the document template. */
  lemma ConvertRendersConvertedMarkdown(lib: Libraries, tpl: Templates, req: MarkdownRequest)
    ensures tpl.document.Content(DocumentHtml(lib, tpl, req)) == Some(lib.markdownToHtml(req.markdown))
  {
    DocumentContentRoundTrip(tpl.document, lib.markdownToHtml(req.markdown));
  }

  /**
   * The certificate HTML holds the stripped name, the course, the date, the
   * instructor and the ID, each exactly as given: nothing is escaped.
   */
  lemma CertificateHtmlCarriesFields(lib: Libraries, tpl: Templates, req: CertificateRequest)
    ensures Occurs(Strip(req.participantName), CertificateHtml(lib, tpl, req))
    ensures Occurs(req.courseName, CertificateHtml(lib, tpl, req))
    ensures Occurs(req.completionDate, CertificateHtml(lib, tpl, req))
    ensures Occurs(req.instructorName, CertificateHtml(lib, tpl, req))
    ensures Occurs(CertificateId(lib, req), CertificateHtml(lib, tpl, req))
  {
    var t, f := tpl.certificate, CertificateFieldsOf(lib, req);
    var texts := [t.beforeName, t.beforeCourse, t.beforeDate, t.beforeInstructor, t.beforeId, t.after];
    var values := [f.participantName, f.courseName, f.completionDate, f.instructorName, f.certificateId];
    InterleaveCarries(texts, values, 0);
    InterleaveCarries(texts, values, 1);
    InterleaveCarries(texts, values, 2);
    InterleaveCarries(texts, values, 3);
    InterleaveCarries(texts, values, 4);
  }

  /** Each value `Interleave` substitutes occurs, unchanged, in what it builds. */
  lemma {:induction false} InterleaveCarries(texts: seq<string>, values: seq<string>, j: nat)
    requires |texts| == |values| + 1 && j < |values|
    ensures Occurs(values[j], Interleave(texts, values))
  {
    var rest := Interleave(texts[1..], values[1..]);
    assert Interleave(texts, values) == texts[0] + (values[0] + rest);
    if j == 0 {
      OccursAtStart(values[0], rest);
      OccursAfter(values[0], texts[0], values[0] + rest, 0);
    } else {
      InterleaveCarries(texts[1..], values[1..], j - 1);
      var k :| 0 <= k <= |rest| && OccursAt(values[j], rest, k);
      OccursAfter(values[j], texts[0] + values[0], rest, k);
      assert texts[0] + (values[0] + rest) == (texts[0] + values[0]) + rest;
    }
  }

  /**
   * Value `j` lands in placeholder `j`: right after the first `j + 1`
   * literal pieces and the `j` values before it.
   */
  lemma {:induction false} InterleaveSlot(texts: seq<string>, values: seq<string>, j: nat)
    requires |texts| == |values| + 1 && j < |values|
    ensures OccursAt(values[j], Interleave(texts, values), TotalLength(texts[..j + 1]) + TotalLength(values[..j]))
  {
    var rest := Interleave(texts[1..], values[1..]);
    assert Interleave(texts, values) == texts[0] + (values[0] + rest);
    if j == 0 {
      TotalLengthPrefix(texts, 1);
      OccursAtStart(values[0], rest);
      OccursAfter(values[0], texts[0], values[0] + rest, 0);
    } else {
      InterleaveSlot(texts[1..], values[1..], j - 1);
      TotalLengthPrefix(texts, j + 1);
      TotalLengthPrefix(values, j);
      OccursAfterPair(values[j], texts[0], values[0], rest, TotalLength(texts[1..][..j]) + TotalLength(values[1..][..j - 1]));
    }
  }

  /** Literal piece `j` stays in place: right after the `j` pieces and `j` values before it. */
  lemma {:induction false} InterleaveText(texts: seq<string>, values: seq<string>, j: nat)
    requires |texts| == |values| + 1 && j < |texts|
    ensures OccursAt(texts[j], Interleave(texts, values), TotalLength(texts[..j]) + TotalLength(values[..j]))
  {
    if values == [] {
      assert Interleave(texts, values)[..|texts[0]|] == texts[0];
    } else {
      var rest := Interleave(texts[1..], values[1..]);
      assert Interleave(texts, values) == texts[0] + (values[0] + rest);
      if j == 0 {
        OccursAtStart(texts[0], values[0] + rest);
      } else {
        InterleaveText(texts[1..], values[1..], j - 1);
        TotalLengthPrefix(texts, j);
        TotalLengthPrefix(values, j);
        OccursAfterPair(texts[j], texts[0], values[0], rest, TotalLength(texts[1..][..j - 1]) + TotalLength(values[1..][..j - 1]));
      }
    }
  }

  lemma TotalLengthPrefix(ss: seq<string>, n: nat)
    requires 0 < n <= |ss|
    ensures TotalLength(ss[..n]) == |ss[0]| + TotalLength(ss[1..][..n - 1])
  {
    assert ss[..n][1..] == ss[1..][..n - 1];
  }

  lemma OccursAfterPair(b: string, t: string, v: string, rest: string, k: nat)
    requires OccursAt(b, rest, k)
    ensures OccursAt(b, t + (v + rest), |t| + |v| + k)
  {
    OccursAfter(b, t + v, rest, k);
    assert t + (v + rest) == (t + v) + rest;
  }

  /**
   * `CERTIFICATE_TEMPLATE.format(...)` is the template's text with each
   * keyword's value in its own placeholder, in template order.
   */
  lemma CertificateFormatSpelledOut(t: CertificateTemplate, f: CertificateFields)
    ensures t.Format(f) == t.beforeName + (f.participantName + (t.beforeCourse + (f.courseName + (t.beforeDate
                           + (f.completionDate + (t.beforeInstructor + (f.instructorName + (t.beforeId
                           + (f.certificateId + t.after)))))))))
  {
    var texts := [t.beforeName, t.beforeCourse, t.beforeDate, t.beforeInstructor, t.beforeId, t.after];
    var values := [f.participantName, f.courseName, f.completionDate, f.instructorName, f.certificateId];
    assert Interleave(texts[5..], values[5..]) == t.after;
    assert Interleave(texts[4..], values[4..]) == t.beforeId + (f.certificateId + t.after) by {
      assert texts[4..][1..] == texts[5..] && values[4..][1..] == values[5..];
    }
    assert Interleave(texts[3..], values[3..])
        == t.beforeInstructor + (f.instructorName + Interleave(texts[4..], values[4..])) by {
      assert texts[3..][1..] == texts[4..] && values[3..][1..] == values[4..];
    }
    assert Interleave(texts[2..], values[2..])
        == t.beforeDate + (f.completionDate + Interleave(texts[3..], values[3..])) by {
      assert texts[2..][1..] == texts[3..] && values[2..][1..] == values[3..];
    }
    assert Interleave(texts[1..], values[1..])
        == t.beforeCourse + (f.courseName + Interleave(texts[2..], values[2..])) by {
      assert texts[1..][1..] == texts[2..] && values[1..][1..] == values[2..];
    }
    assert t.Format(f) == t.beforeName + (f.participantName + Interleave(texts[1..], values[1..]));
  }

  /**
   * The participant name goes right after the text before it, and the
   * course right after the name and the text before the course: the
   * keywords are not mixed up.
   */
  lemma CertificateNameAndCourseSlots(t: CertificateTemplate, f: CertificateFields)
    ensures OccursAt(f.participantName, t.Format(f), |t.beforeName|)
    ensures OccursAt(f.courseName, t.Format(f), |t.beforeName| + |f.participantName| + |t.beforeCourse|)
  {
    var texts := [t.beforeName, t.beforeCourse, t.beforeDate, t.beforeInstructor, t.beforeId, t.after];
    var values := [f.participantName, f.courseName, f.completionDate, f.instructorName, f.certificateId];
    InterleaveSlot(texts, values, 0);
    assert TotalLength(texts[..1]) == |t.beforeName| by { assert texts[..1][1..] == []; }
    InterleaveSlot(texts, values, 1);
    assert TotalLength(texts[..2]) == |t.beforeName| + |t.beforeCourse| by {
      assert texts[..2][1..][1..] == [];
    }
    assert TotalLength(values[..1]) == |f.participantName| by { assert values[..1][1..] == []; }
  }

  /** The text after the last placeholder closes the certificate. */
  lemma CertificateClosingText(t: CertificateTemplate, f: CertificateFields)
    ensures OccursAt(t.after, t.Format(f), |t.Format(f)| - |t.after|)
  {
    var texts := [t.beforeName, t.beforeCourse, t.beforeDate, t.beforeInstructor, t.beforeId, t.after];
    var values := [f.participantName, f.courseName, f.completionDate, f.instructorName, f.certificateId];
    InterleaveText(texts, values, 5);
    assert texts[..5] + [t.after] == texts;
    assert values[..5] == values;
    TotalLengthAppend(texts[..5], [t.after]);
    assert TotalLength([t.after]) == |t.after| by { assert [t.after][1..] == []; }
  }

  lemma {:induction false} TotalLengthAppend(a: seq<string>, b: seq<string>)
    ensures TotalLength(a + b) == TotalLength(a) + TotalLength(b)
  {
    if a != [] {
      assert (a + b)[1..] == a[1..] + b;
      TotalLengthAppend(a[1..], b);
    } else {
      assert a + b == b;
    }
  }

  /** Without `instructor_name`, the certificate names "IntelliForge AI Team" as instructor. */
  lemma DefaultInstructorOnCertificate(lib: Libraries, tpl: Templates, name: string, course: string, date: string)
    ensures Occurs("IntelliForge AI Team", CertificateHtml(lib, tpl, NewCertificateRequest(name, course, date, None)))
  {
    CertificateHtmlCarriesFields(lib, tpl, NewCertificateRequest(name, course, date, None));
  }

  /** A filename with no `"` and no backslash followed by `"` and more text: a quoted-string ends at that `"`. */
  lemma {:induction false} QuotedTextPlain(name: string, rest: string)
    requires '"' !in name && '\\' !in name
    ensures QuotedText(name + "\"" + rest) == Some(name)
    decreases |name|
  {
    var s := name + "\"" + rest;
    if name == [] {
      assert s[0] == '"';
    } else {
      assert s[0] == name[0];
      assert s[1..] == name[1..] + "\"" + rest;
      QuotedTextPlain(name[1..], rest);
      assert [name[0]] + name[1..] == name;
    }
  }

  /** Without `"` or a backslash in it, the filename is also what a quoted-string reader gets. */
  lemma AttachmentQuotedRoundTrip(filename: string)
    requires '"' !in filename && '\\' !in filename
    ensures QuotedFilename(Attachment(filename)) == Some(filename)
  {
    var value := Attachment(filename);
    assert value[..|DispositionPrefix|] == DispositionPrefix;
    assert value[|DispositionPrefix|..] == filename + "\"" + [];
    QuotedTextPlain(filename, []);
  }

  /**
   * The filename is not escaped: when it holds a `"`, a quoted-string reader
   * takes only the part before it, and the rest of the name ends up after
   * the parameter, where it can read as further header parameters.
   */
  lemma QuoteInFilenameCutsIt(before: string, after: string)
    requires '"' !in before && '\\' !in before
    ensures QuotedFilename(Attachment(before + "\"" + after)) == Some(before)
    ensures DispositionFilename(Attachment(before + "\"" + after)) == Some(before + "\"" + after)
    ensures before != before + "\"" + after
  {
    var value := Attachment(before + "\"" + after);
    assert value[..|DispositionPrefix|] == DispositionPrefix;
    assert value[|DispositionPrefix|..] == before + "\"" + (after + "\"");
    QuotedTextPlain(before, after + "\"");
    AttachmentRoundTrip(before + "\"" + after);
  }

  /** Character facts about a participant name holding a quote. */
  lemma QuotedNameFacts()
    ensures !IsSpace("Jane\"Doe"[0]) && !IsSpace("Jane\"Doe"[7]) && ' ' !in "Jane\"Doe"
    ensures "Certificate_" + "Jane\"Doe" + ".pdf" == "Certificate_Jane" + "\"" + "Doe.pdf"
    ensures '"' !in "Certificate_Jane" && '\\' !in "Certificate_Jane"
  {
  }

  /** A participant named `Jane"Doe` gets a header from which a quoted-string reader takes `Certificate_Jane`. */
  lemma QuotedNameCertificate()
    ensures CertificateFilename("Jane\"Doe") == "Certificate_Jane\"Doe.pdf"
    ensures QuotedFilename(Attachment(CertificateFilename("Jane\"Doe"))) == Some("Certificate_Jane")
  {
    QuotedNameFacts();
    FilenameOfTrimmed("Jane\"Doe", "Jane\"Doe");
    QuoteInFilenameCutsIt("Certificate_Jane", "Doe.pdf");
  }

  /** Every listed course is unknown once padded with whitespace: the course name is compared as given. */
  lemma PaddedCourseUnknown(course: string, c: char)
    requires KnownCourse(course) && IsSpace(c)
    ensures !KnownCourse([c] + course) && !KnownCourse(course + [c])
  {
    assert ([c] + course)[0] == c;
    assert (course + [c])[|course + [c]| - 1] == c;
  }

  /** Without `filename`, a successful conversion is offered for download as `document.pdf`. */
  lemma ConvertDefaultFilename(lib: Libraries, tpl: Templates, markdown: string)
    ensures var r := ConvertMarkdownToPdf(lib, tpl, NewMarkdownRequest(markdown, None));
      r.Ok? ==> DispositionFilename(r.response.headers["Content-Disposition"]) == Some("document.pdf")
  {
    AttachmentRoundTrip(DefaultFilename);
  }

  /**
   * A request that fails either check gets the same reply whatever the
   * libraries and templates are: nothing is hashed or rendered for it.
   */
  lemma RejectedCertificateIgnoresRenderer(lib1: Libraries, tpl1: Templates, lib2: Libraries, tpl2: Templates,
                                           req: CertificateRequest)
    requires !ValidCertificateRequest(req)
    ensures GenerateCertificate(lib1, tpl1, req) == GenerateCertificate(lib2, tpl2, req)
    ensures GenerateCertificate(lib1, tpl1, req).Err? && GenerateCertificate(lib1, tpl1, req).error.status == 400
  {
  }

  /**
   * The certificate ID depends on the name, course and date only through the
   * `-`-joined hash input, so two different valid requests can share an ID:
   * moving `-<course>` from the date onto the end of the name, and the
   * course into the date, leaves the hash input as it was.
   */
  lemma CertificateIdAmbiguous(lib: Libraries, name: string, course1: string, course2: string, date: string,
                               instructor: string)
    requires KnownCourse(course1) && KnownCourse(course2) && !AllSpace(name)
    ensures var r1 := CertificateRequest(name, course1, course2 + "-" + date, instructor);
            var r2 := CertificateRequest(name + "-" + course1, course2, date, instructor);
            && ValidCertificateRequest(r1) && ValidCertificateRequest(r2) && r1 != r2
            && CertificateId(lib, r1) == CertificateId(lib, r2)
  {
    var r1 := CertificateRequest(name, course1, course2 + "-" + date, instructor);
    var r2 := CertificateRequest(name + "-" + course1, course2, date, instructor);
    HashJoinShift(name, course1, course2, date);
    NotAllSpaceExtended(name, "-");
    NotAllSpaceExtended(name + "-", course1);
    assert |r1.participantName| != |r2.participantName|;
  }

  /** Moving `-<course>` across the `-` between two fields leaves the joined string as it was. */
  lemma HashJoinShift(name: string, course1: string, course2: string, date: string)
    ensures name + "-" + course1 + "-" + (course2 + "-" + date) == (name + "-" + course1) + "-" + course2 + "-" + date
  {
  }

  /** Text added after a name that is not all whitespace leaves it not all whitespace. */
  lemma NotAllSpaceExtended(name: string, more: string)
    requires !AllSpace(name)
    ensures !AllSpace(name + more)
  {
    var k :| 0 <= k < |name| && !IsSpace(name[k]);
    assert (name + more)[k] == name[k];
  }

  /**
   * The ID hashes the name before stripping while the template and filename
   * use it after: a leading whitespace character changes the hash input but
   * neither the name on the certificate nor the filename.
   */
  lemma HashUsesUnstrippedName(lib: Libraries, req: CertificateRequest, c: char)
    requires IsSpace(c)
    ensures var padded := req.(participantName := [c] + req.participantName);
            && HashInput(padded) != HashInput(req)
            && CertificateFieldsOf(lib, padded).participantName == CertificateFieldsOf(lib, req).participantName
            && CertificateFilename(padded.participantName) == CertificateFilename(req.participantName)
  {
    var padded := req.(participantName := [c] + req.participantName);
    assert |HashInput(padded)| == |HashInput(req)| + 1;
    StripLeadingSpace(c, req.participantName);
  }

  /** The filename for a name with no whitespace at either end, given the name with its spaces replaced. */
  lemma FilenameOfTrimmed(name: string, safeName: string)
    requires name != [] && !IsSpace(name[0]) && !IsSpace(name[|name| - 1])
    requires |safeName| == |name|
    requires forall i | 0 <= i < |name| :: safeName[i] == (if name[i] == ' ' then '_' else name[i])
    ensures CertificateFilename(name) == "Certificate_" + safeName + ".pdf"
  {
    StripTrimmed(name);
    assert ReplaceChar(name, ' ', '_') == safeName;
  }

  /** Character facts about two sample names, kept apart so that each is checked on its own. */
  lemma SampleNameFacts()
    ensures !IsSpace("Jane Doe"[0]) && !IsSpace("Jane Doe"[7])
    ensures forall i | 0 <= i < 8 :: "Jane_Doe"[i] == (if "Jane Doe"[i] == ' ' then '_' else "Jane Doe"[i])
    ensures "Certificate_" + "Jane_Doe" + ".pdf" == "Certificate_Jane_Doe.pdf"
    ensures !IsSpace("Jane\tDoe"[0]) && !IsSpace("Jane\tDoe"[7]) && ' ' !in "Jane\tDoe"
    ensures "Certificate_" + "Jane\tDoe" + ".pdf" == "Certificate_Jane\tDoe.pdf"
  {
  }

  /** An inner space becomes `_`. */
  lemma JaneDoeFilename()
    ensures CertificateFilename("Jane Doe") == "Certificate_Jane_Doe.pdf"
  {
    SampleNameFacts();
    FilenameOfTrimmed("Jane Doe", "Jane_Doe");
  }

  /** A leading space is dropped before the spaces are replaced. */
  lemma PaddedJaneDoeFilename()
    ensures CertificateFilename(" Jane Doe") == CertificateFilename("Jane Doe")
  {
    assert " Jane Doe" == [' '] + "Jane Doe";
    StripLeadingSpace(' ', "Jane Doe");
  }

  /** An inner tab is not a space: it stays in the filename. */
  lemma TabbedNameFilename()
    ensures CertificateFilename("Jane\tDoe") == "Certificate_Jane\tDoe.pdf"
  {
    SampleNameFacts();
    FilenameOfTrimmed("Jane\tDoe", "Jane\tDoe");
  }

  /**
   * A certificate for "Jane Doe" on a listed course, once rendered, is
   * offered as `Certificate_Jane_Doe.pdf` with the PDF as body.
   */
  lemma JaneDoeCertificate(lib: Libraries, tpl: Templates)
    requires lib.createPdf(CertificateHtml(lib, tpl,
               NewCertificateRequest("Jane Doe", "Digital Profile Creation", "2026-01-01", None))).Written?
    ensures var req := NewCertificateRequest("Jane Doe", "Digital Profile Creation", "2026-01-01", None);
            var r := GenerateCertificate(lib, tpl, req);
            && r.Ok?
            && r.response.body == lib.createPdf(CertificateHtml(lib, tpl, req)).pdf
            && DispositionFilename(r.response.headers["Content-Disposition"]) == Some("Certificate_Jane_Doe.pdf")
  {
    var req := NewCertificateRequest("Jane Doe", "Digital Profile Creation", "2026-01-01", None);
    assert KnownCourse(req.courseName);
    JaneDoeFilename();
    AttachmentRoundTrip("Certificate_Jane_Doe.pdf");
  }
}

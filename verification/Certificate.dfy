/** The completion certificate (internal/certificate/pdf.go): which field stands where on
    the page, as a reader of the finished file sees it. */
module Certificate {
  import opened Common
  import opened PdfWriter
  import opened PdfReader
  import opened PdfRoundTrip

  /** The fields of a certificate; the date is already formatted. */
  datatype PdfData = PdfData(learnerName: string, courseTitle: string, issuedOn: string, verificationCode: string)

  const HEADING := "Certificate of Completion"
  const CERTIFIES := "This certifies that"
  const SUCCESS := "has successfully" + " completed"
  const DATE := "Issued: "
  const CODE_WORD := "Verification code: "

  const TITLE := HEADING + "\n\n" + CERTIFIES + "\n"
  const COMPLETED := "\n" + SUCCESS + "\n"
  const ISSUED := "\n\n" + DATE
  const CODE := "\n" + CODE_WORD

  function CertificateText(data: PdfData): string {
    TITLE + data.learnerName + COMPLETED + data.courseTitle + ISSUED + data.issuedOn + CODE + data.verificationCode
  }

  // --- lines ----------------------------------------------------------------------------

  /** A text cut at its line feeds. */
  function Lines(text: string): (lines: seq<string>)
    ensures lines != []
  {
    if text == "" then [""]
    else
      var n := |text| - 1;
      var front := Lines(text[..n]);
      if text[n] == '\n' then front + [""] else front[..|front| - 1] + [front[|front| - 1] + [text[n]]]
  }

  function Joined(lines: seq<string>): string
    requires lines != []
  {
    var n := |lines| - 1;
    if n == 0 then lines[0] else Joined(lines[..n]) + "\n" + lines[n]
  }

  lemma JoinedMore(front: seq<string>, c: char)
    requires front != []
    ensures var last := |front| - 1;
      Joined(front[..last] + [front[last] + [c]]) == Joined(front) + [c]
  {
    var last := |front| - 1;
    var lines := front[..last] + [front[last] + [c]];
    assert lines[..last] == front[..last];
    if last > 0 { assert Joined(front[..last]) + "\n" + (front[last] + [c]) == Joined(front) + [c]; }
  }

  lemma {:induction false} JoinedLines(text: string)
    ensures Joined(Lines(text)) == text
  {
    if text != "" {
      var n := |text| - 1;
      JoinedLines(text[..n]);
      var front := Lines(text[..n]);
      assert text == text[..n] + [text[n]];
      if text[n] == '\n' {
        assert (front + [""])[..|front|] == front;
      } else {
        JoinedMore(front, text[n]);
      }
    }
  }

  lemma {:induction false} OneMoreLine(text: string, line: string)
    requires '\n' !in line
    ensures Lines(text + "\n" + line) == Lines(text) + [line]
  {
    var whole := text + "\n" + line;
    if line == "" {
      assert whole == text + "\n";
      assert whole[..|whole| - 1] == text;
    } else {
      var n := |line| - 1;
      assert whole[..|whole| - 1] == text + "\n" + line[..n];
      OneMoreLine(text, line[..n]);
      assert line == line[..n] + [line[n]] && line[n] in line;
    }
  }

  lemma {:induction false} OneLine(line: string)
    requires '\n' !in line
    ensures Lines(line) == [line]
  {
    if line != "" {
      var n := |line| - 1;
      OneLine(line[..n]);
      assert line == line[..n] + [line[n]] && line[n] in line;
    }
  }

  lemma {:induction false} LinesJoined(lines: seq<string>)
    requires lines != [] && forall i :: 0 <= i < |lines| ==> '\n' !in lines[i]
    ensures Lines(Joined(lines)) == lines
  {
    hide Lines;
    var n := |lines| - 1;
    if n == 0 {
      OneLine(lines[0]);
      assert lines == [lines[0]];
    } else {
      assert lines == lines[..n] + [lines[n]];
      LinesJoined(lines[..n]);
      OneMoreLine(Joined(lines[..n]), lines[n]);
    }
  }

  // --- what a reader of the file sees -----------------------------------------------------

  /** The lines of the page, if a reader can open the file. */
  function ReadLines(file: string): Option<seq<string>> {
    match ReadPageText(file)
    case None => None
    case Some(text) => Some(Lines(text))
  }

  /** Each field fits on a line. */
  predicate Unbroken(data: PdfData) {
    '\n' !in data.learnerName && '\n' !in data.courseTitle && '\n' !in data.issuedOn && '\n' !in data.verificationCode
  }

  /** No field has a carriage return, and the escaped fields are not absurdly long. */
  predicate Readable(data: PdfData) {
    && '\r' !in data.learnerName && '\r' !in data.courseTitle && '\r' !in data.issuedOn
    && '\r' !in data.verificationCode
    && |Escape(data.learnerName)| + |Escape(data.courseTitle)| + |Escape(data.issuedOn)|
       + |Escape(data.verificationCode)| < 9_999_999_557
  }

  /** A line of its own between two fields. */
  lemma LineBetween(text: string, line: string, field: string)
    requires '\n' !in line && '\n' !in field
    ensures Lines(text + ("\n" + line + "\n") + field) == Lines(text) + [line, field]
  {
    OneMoreLine(text, line);
    OneMoreLine(text + "\n" + line, field);
    assert text + ("\n" + line + "\n") + field == text + "\n" + line + "\n" + field;
  }

  /** A field after a word. */
  lemma FieldAfter(text: string, word: string, field: string)
    requires '\n' !in word && '\n' !in field
    ensures Lines(text + ("\n" + word) + field) == Lines(text) + [word + field]
  {
    OneMoreLine(text, word + field);
    assert text + ("\n" + word) + field == text + "\n" + (word + field);
  }

  lemma HeadLines(heading: string, line: string)
    requires '\n' !in heading && '\n' !in line
    ensures Lines(heading + "\n\n" + line + "\n") == [heading, "", line, ""]
  {
    OneLine(heading);
    OneMoreLine(heading, "");
    OneMoreLine(heading + "\n" + "", line);
    OneMoreLine(heading + "\n" + "" + "\n" + line, "");
    assert heading + "\n" + "" + "\n" + line + "\n" + "" == heading + "\n\n" + line + "\n";
  }

  lemma {:induction false} LastLine(text: string, more: string)
    requires '\n' !in more
    ensures var lines := Lines(text); var n := |lines| - 1;
      Lines(text + more) == lines[..n] + [lines[n] + more]
  {
    if more == "" {
      assert text + more == text;
      assert Lines(text)[|Lines(text)| - 1] + "" == Lines(text)[|Lines(text)| - 1];
    } else {
      var m := |more| - 1;
      assert (text + more)[..|text + more| - 1] == text + more[..m];
      LastLine(text, more[..m]);
      assert more == more[..m] + [more[m]] && more[m] in more;
      assert (text + more)[|text + more| - 1] == more[m];
      var lines := Lines(text);
      var last := lines[|lines| - 1];
      assert last + more[..m] + [more[m]] == last + more;
    }
  }

  /** The page of a certificate, line by line. */
  lemma TextLines(data: PdfData)
    requires Unbroken(data)
    ensures Lines(CertificateText(data))
         == [HEADING, "", CERTIFIES, data.learnerName, SUCCESS, data.courseTitle, "", DATE + data.issuedOn,
             CODE_WORD + data.verificationCode]
  {
    PlainFixed();
    hide Lines, HEADING, CERTIFIES, SUCCESS, DATE, CODE_WORD;
    HeadLines(HEADING, CERTIFIES);
    LastLine(TITLE, data.learnerName);
    assert "" + data.learnerName == data.learnerName;
    var named := TITLE + data.learnerName;
    LineBetween(named, SUCCESS, data.courseTitle);
    var titled := named + COMPLETED + data.courseTitle;
    OneMoreLine(titled, "");
    FieldAfter(titled + "\n" + "", DATE, data.issuedOn);
    assert titled + "\n" + "" + ("\n" + DATE) == titled + ISSUED;
    FieldAfter(titled + ISSUED + data.issuedOn, CODE_WORD, data.verificationCode);
  }

  lemma InConcat(c: char, a: string, b: string)
    ensures c in a + b <==> c in a || c in b
  {
  }

  /** A certificate shows its fields as stored exactly when none of them contains a
      carriage return (and the file is not absurdly large). */
  lemma CertificateRoundTrip(data: PdfData)
    requires |Escape(CertificateText(data))| < 9_999_999_670
    ensures ReadPageText(Document(CertificateText(data))) == Some(CertificateText(data))
      <==> '\r' !in data.learnerName + data.courseTitle + data.issuedOn + data.verificationCode
  {
    RoundTrip(CertificateText(data));
    FixedLines();
    InFields('\r', TITLE, data.learnerName, COMPLETED, data.courseTitle, ISSUED, data.issuedOn, CODE,
             data.verificationCode);
    InConcat('\r', data.learnerName + data.courseTitle + data.issuedOn, data.verificationCode);
    InConcat('\r', data.learnerName + data.courseTitle, data.issuedOn);
    InConcat('\r', data.learnerName, data.courseTitle);
  }

  lemma WordsWithoutReturn()
    ensures '\r' !in HEADING && '\r' !in CERTIFIES
  {
  }

  lemma LabelsWithoutReturn()
    ensures '\r' !in SUCCESS && '\r' !in DATE && '\r' !in CODE_WORD
  {
  }

  lemma FixedLines()
    ensures '\r' !in TITLE && '\r' !in COMPLETED && '\r' !in ISSUED && '\r' !in CODE
  {
    WordsWithoutReturn();
    LabelsWithoutReturn();
    hide HEADING, CERTIFIES, SUCCESS, DATE, CODE_WORD;
    assert '\r' !in "\n" && '\r' !in "\n\n";
  }

  lemma InFields(c: char, a: string, n: string, b: string, t: string, i: string, d: string, e: string, v: string)
    ensures c in a + n + b + t + i + d + e + v
      <==> c in a || c in n || c in b || c in t || c in i || c in d || c in e || c in v
  {
    InConcat(c, a + n + b + t + i + d + e, v);
    InConcat(c, a + n + b + t + i + d, e);
    InConcat(c, a + n + b + t + i, d);
    InConcat(c, a + n + b + t, i);
    InConcat(c, a + n + b, t);
    InConcat(c, a + n, b);
    InConcat(c, a, n);
  }

  // --- the size of the page --------------------------------------------------------------

  lemma {:induction false} EscapeConcat(a: string, b: string)
    ensures Escape(a + b) == Escape(a) + Escape(b)
  {
    if a == "" {
      assert a + b == b;
    } else {
      assert (a + b)[1..] == a[1..] + b;
      EscapeConcat(a[1..], b);
      Associative(EscapeByte(a[0]), Escape(a[1..]), Escape(b));
    }
  }

  lemma {:induction false} EscapePlain(text: string)
    requires Plain(text)
    ensures Escape(text) == text
  {
    if text != "" {
      PlainFirst(text);
      EscapePlain(text[1..]);
    }
  }

  lemma PlainFirst(text: string)
    requires Plain(text) && text != ""
    ensures EscapeByte(text[0]) == [text[0]] && Plain(text[1..])
  {
    assert text[0] in text;
    assert forall c :: c in text[1..] ==> c in text;
  }

  lemma EscapeLine(text: string, line: string)
    ensures |Escape(text + "\n" + line)| == |Escape(text)| + 2 + |Escape(line)|
  {
    EscapeConcat(text + "\n", line);
    EscapeConcat(text, "\n");
    assert Escape("\n") == EscapeByte('\n') + Escape("");
  }

  predicate Plain(text: string) {
    '(' !in text && ')' !in text && '\\' !in text && '\n' !in text
  }

  lemma PlainHeading()
    ensures Plain(HEADING) && |HEADING| == 25
  {
  }

  lemma PlainCertifies()
    ensures Plain(CERTIFIES) && |CERTIFIES| == 19
  {
  }

  lemma PlainSuccess()
    ensures Plain(SUCCESS) && |SUCCESS| == 26
  {
  }

  lemma PlainDate()
    ensures Plain(DATE) && |DATE| == 8
  {
  }

  lemma PlainCode()
    ensures Plain(CODE_WORD) && |CODE_WORD| == 19
  {
  }

  lemma PlainFixed()
    ensures Plain(HEADING) && Plain(CERTIFIES) && Plain(SUCCESS) && Plain(DATE) && Plain(CODE_WORD)
    ensures |HEADING| + |CERTIFIES| + |SUCCESS| + |DATE| + |CODE_WORD| == 97
  {
    PlainHeading();
    PlainCertifies();
    PlainSuccess();
    PlainDate();
    PlainCode();
  }

  lemma FixedEscapes()
    ensures |Escape(TITLE)| + |Escape(COMPLETED)| + |Escape(ISSUED)| + |Escape(CODE)| == 113
  {
    PlainFixed();
    hide HEADING, CERTIFIES, SUCCESS, DATE, CODE_WORD, Plain, Escape;
    EscapePlain(HEADING);
    EscapePlain(CERTIFIES);
    EscapePlain(SUCCESS);
    EscapePlain(DATE);
    EscapePlain(CODE_WORD);
    TitleEscapes(HEADING, CERTIFIES);
    WordEscapes(SUCCESS);
    WordEscapes(DATE);
    WordEscapes(CODE_WORD);
  }

  lemma WordEscapes(word: string)
    ensures |Escape("\n" + word + "\n")| == |Escape(word)| + 4
    ensures |Escape("\n\n" + word)| == |Escape(word)| + 4
    ensures |Escape("\n" + word)| == |Escape(word)| + 2
  {
    EscapeLine("", word);
    assert "" + "\n" + word == "\n" + word;
    EscapeLine("\n" + word, "");
    assert "\n" + word + "\n" + "" == "\n" + word + "\n";
    EscapeLine("", "");
    EscapeLine("\n", word);
    assert "" + "\n" + "" == "\n" && "\n" + "\n" + word == "\n\n" + word;
  }

  lemma TitleEscapes(heading: string, line: string)
    ensures |Escape(heading + "\n\n" + line + "\n")| == |Escape(heading)| + |Escape(line)| + 6
  {
    EscapeLine(heading, "");
    EscapeLine(heading + "\n" + "", line);
    EscapeLine(heading + "\n" + "" + "\n" + line, "");
    assert heading + "\n" + "" + "\n" + line + "\n" + "" == heading + "\n\n" + line + "\n";
  }

  lemma TextEscapes(data: PdfData)
    ensures |Escape(CertificateText(data))|
      == 113 + |Escape(data.learnerName)| + |Escape(data.courseTitle)| + |Escape(data.issuedOn)|
         + |Escape(data.verificationCode)|
  {
    FixedEscapes();
    hide TITLE, COMPLETED, ISSUED, CODE, Escape;
    var t1 := TITLE + data.learnerName;
    var t2 := t1 + COMPLETED;
    var t3 := t2 + data.courseTitle;
    var t4 := t3 + ISSUED;
    var t5 := t4 + data.issuedOn;
    var t6 := t5 + CODE;
    EscapeConcat(TITLE, data.learnerName);
    EscapeConcat(t1, COMPLETED);
    EscapeConcat(t2, data.courseTitle);
    EscapeConcat(t3, ISSUED);
    EscapeConcat(t4, data.issuedOn);
    EscapeConcat(t5, CODE);
    EscapeConcat(t6, data.verificationCode);
  }

  lemma NoReturns(data: PdfData)
    ensures '\r' !in CertificateText(data) <==>
      '\r' !in data.learnerName && '\r' !in data.courseTitle && '\r' !in data.issuedOn
      && '\r' !in data.verificationCode
  {
    FixedLines();
    InFields('\r', TITLE, data.learnerName, COMPLETED, data.courseTitle, ISSUED, data.issuedOn, CODE,
             data.verificationCode);
  }

  lemma LinesTell(text: string, other: string)
    ensures Lines(text) == Lines(other) ==> text == other
  {
    JoinedLines(text);
    JoinedLines(other);
  }

  /** For fields that fit on a line: the reader sees the heading, the learner's name under
      "This certifies that", the course under "has successfully completed", then the date and
      the code, exactly when no field has a carriage return and all fit. */
  lemma CertificateShows(data: PdfData)
    requires Unbroken(data)
    ensures ReadLines(Document(CertificateText(data)))
      == Some(["Certificate of Completion", "", "This certifies that", data.learnerName,
               "has successfully" + " completed", data.courseTitle, "", "Issued: " + data.issuedOn,
               "Verification code: " + data.verificationCode])
      <==> Readable(data)
  {
    hide Document, Lines, Escape;
    var text := CertificateText(data);
    RoundTrip(text);
    TextLines(data);
    TextEscapes(data);
    NoReturns(data);
    if read :| ReadPageText(Document(text)) == Some(read) {
      LinesTell(read, text);
    }
  }

  /** The certificate of a learner for a course (GeneratePDF). A field that holds line feeds
      takes several lines, in its place. */
  method GeneratePdf(data: PdfData) returns (out: string)
    ensures out == Document(CertificateText(data))
    ensures Unbroken(data) ==>
      (ReadLines(out)
         == Some(["Certificate of Completion", "", "This certifies that", data.learnerName,
                  "has successfully" + " completed", data.courseTitle, "", "Issued: " + data.issuedOn,
                  "Verification code: " + data.verificationCode])
       <==> Readable(data))
    ensures Readable(data) ==>
      ReadPageText(out) == Some("Certificate of Completion" + "\n\n" + "This certifies that" + "\n" + data.learnerName
        + ("\n" + ("has successfully" + " completed") + "\n") + data.courseTitle
        + ("\n\n" + "Issued: ") + data.issuedOn + ("\n" + "Verification code: ") + data.verificationCode)
  {
    hide Document, Lines, Escape;
    out := MinimalPdf(CertificateText(data));
    if Unbroken(data) { CertificateShows(data); }
    RoundTrip(CertificateText(data));
    TextEscapes(data);
    NoReturns(data);
  }

  /** A learner whose name is a carriage return gets a certificate that shows another name. */
  lemma CarriageReturnLost() returns (data: PdfData)
    ensures data.learnerName == "\r"
    ensures ReadPageText(Document(CertificateText(data))) != Some(CertificateText(data))
  {
    data := PdfData("\r", "", "", "");
    TextEscapes(data);
    assert Escape("\r") == EscapeByte('\r') + Escape("");
    CertificateRoundTrip(data);
  }
}

/** What a reader gets back from a certificate file: the writer of PdfWriter against the
    reader of PdfReader. */
module PdfRoundTrip {
  import opened Common
  import opened Decimal
  import opened PdfWriter
  import opened PdfReader

  // --- literal strings ----------------------------------------------------------------

  /** The text as a literal string keeps it: a raw carriage return is an end-of-line
      marker, which reads as a line feed. */
  function EndOfLinesRead(text: string): string {
    if text == "" then ""
    else [if text[0] == '\r' then '\n' else text[0]] + EndOfLinesRead(text[1..])
  }

  lemma {:induction false} ReadUnchanged(text: string)
    ensures EndOfLinesRead(text) == text <==> '\r' !in text
  {
    if text != "" {
      var rest := text[1..];
      assert text == [text[0]] + rest;
      ReadUnchanged(rest);
      assert EndOfLinesRead(text)[0] == (if text[0] == '\r' then '\n' else text[0]);
      assert EndOfLinesRead(text)[1..] == EndOfLinesRead(rest);
    }
  }

  /** Scanning closes exactly at the parenthesis after the escaped text, whatever the
      text contains and whatever follows, and recovers the text. */
  lemma {:induction false} ScanEscaped(text: string, after: string)
    ensures ScanLiteral(Escape(text) + ")" + after, 0) == Some((EndOfLinesRead(text), after))
  {
    var s := Escape(text) + ")" + after;
    if text == "" {
      assert s == ")" + after;
      assert s[1..] == after;
    } else {
      var c, rest := text[0], text[1..];
      var s' := Escape(rest) + ")" + after;
      assert s == EscapeByte(c) + s';
      ScanEscaped(rest, after);
      FirstByte(rest, after);
      if c == '(' || c == ')' || c == '\\' || c == '\n' {
        assert s[1..][1..] == s';
      } else {
        assert s[1..] == s';
      }
    }
  }

  /** The writer never puts out a raw line feed inside the string. */
  lemma FirstByte(text: string, after: string)
    ensures var s := Escape(text) + ")" + after; s != "" && s[0] != '\n'
  {
    if text != "" { assert Escape(text)[0] == EscapeByte(text[0])[0]; }
  }

  /** Different texts without carriage returns are escaped differently. */
  lemma EscapeInjective(a: string, b: string)
    requires '\r' !in a && '\r' !in b
    ensures Escape(a) == Escape(b) ==> a == b
  {
    ScanEscaped(a, "");
    ScanEscaped(b, "");
    ReadUnchanged(a);
    ReadUnchanged(b);
  }

  // --- single fields ------------------------------------------------------------------

  lemma ExpectFound(lit: string, rest: string)
    ensures Expect(lit + rest, lit) == Some(rest)
  {
    assert (lit + rest)[|lit|..] == rest;
  }

  /** A literal, a printed number and the bytes after it are read one after the other. */
  lemma NumberFound(lit: string, n: nat, rest: string)
    requires rest != "" && !IsDigit(rest[0])
    ensures Expect(lit + Digits(n) + rest, lit) == Some(Digits(n) + rest)
    ensures ReadNat(Digits(n) + rest) == Some((n, rest))
  {
    Associative(lit, Digits(n), rest);
    ExpectFound(lit, Digits(n) + rest);
    ReadPrinted(n, rest);
  }

  lemma RefFound(lit: string, n: nat, rest: string)
    ensures ReadRef(lit + Digits(n) + " 0 R" + rest, lit) == Some((n, rest))
  {
    var after := " 0 R" + rest;
    Associative(lit + Digits(n), " 0 R", rest);
    NumberFound(lit, n, after);
    ExpectFound(" 0 R", rest);
  }

  // --- the content stream -------------------------------------------------------------

  lemma ShownText(text: string)
    ensures ReadShownText(ContentStream(text)) == Some(EndOfLinesRead(text))
  {
    var closed := Escape(text) + ")" + " Tj\nET";
    assert ContentStream(text) == CONTENT_OPEN + closed;
    ExpectFound(CONTENT_OPEN, closed);
    ScanEscaped(text, " Tj\nET");
  }

  /** /Length is the number of bytes between the stream keywords. */
  lemma StreamFound(data: string, rest: string)
    ensures ReadStream(StreamBody(data) + "\nendobj\n" + rest) == Some(data)
  {
    var end := "\nendstream\nendobj\n" + rest;
    var content := data + end;
    var afterNumber := " >>\nstream\n" + content;
    assert StreamBody(data) + "\nendobj\n" + rest == "<< /Length " + Digits(|data|) + afterNumber;
    NumberFound("<< /Length ", |data|, afterNumber);
    ExpectFound(" >>\nstream\n", content);
    assert content[..|data|] == data && content[|data|..] == end;
    ExpectFound("\nendstream\nendobj\n", rest);
  }

  // --- the cross-reference table ------------------------------------------------------

  /** Every object starts below ten to the ten, so every offset fits in its entry. */
  ghost predicate OffsetsFit(bodies: seq<string>) {
    forall id :: 1 <= id <= |bodies| ==> Offset(bodies, id) < Power10(10)
  }

  lemma EntryShape(offset: nat)
    ensures offset < Power10(10) ==> |Entry(offset)| == 20
    ensures offset >= Power10(10) ==> |Entry(offset)| > 20
    ensures 't' !in Entry(offset)
  {
    PaddedFits(offset, 10);
  }

  /** What is appended to the table leaves the entries before it in place. */
  lemma SliceKept(front: string, last: string, at: nat)
    requires at + 20 <= |front|
    ensures (front + last)[at..at + 20] == front[at..at + 20]
  {
  }

  lemma LastSlice(front: string, last: string)
    requires |last| == 20
    ensures (front + last)[|front|..|front| + 20] == last
  {
  }

  /** When the offsets fit, entry id takes the 20 bytes from 20 * id on. */
  lemma {:induction false} EntryPlace(bodies: seq<string>, k: nat, id: nat)
    requires 1 <= id <= k <= |bodies|
    requires forall i :: 1 <= i <= k ==> Offset(bodies, i) < Power10(10)
    ensures |Entries(bodies, k)| == 20 * k + 20
    ensures Entries(bodies, k)[20 * id..20 * id + 20] == Entry(Offset(bodies, id))
  {
    hide Entry, Offset, Power10;
    EntryShape(Offset(bodies, k));
    var front, last := Entries(bodies, k - 1), Entry(Offset(bodies, k));
    if k == 1 {
      assert front == FREE_ENTRY;
    } else {
      EntryPlace(bodies, k - 1, if id < k then id else 1);
    }
    if id < k { SliceKept(front, last, 20 * id); } else { LastSlice(front, last); }
  }

  lemma EntryRead(buf: string, table: Table, id: nat, offset: nat)
    requires id < table.size && table.first + 20 * id + 20 <= |buf|
    requires buf[table.first + 20 * id..table.first + 20 * id + 20] == Entry(offset)
    requires offset < Power10(10)
    ensures ReadEntry(buf, table, id) == Some(offset)
  {
    PaddedFits(offset, 10);
    var at := table.first + 20 * id;
    var entry := buf[at..at + 20];
    var digits := Padded(offset, 10);
    assert buf[at..at + 10] == entry[..10] == digits;
    assert buf[at + 10..at + 20] == entry[10..] == " 00000 n \n";
    RunStops(digits, "");
    assert digits + "" == digits;
  }

  // --- objects ------------------------------------------------------------------------

  /** Object id stands at its recorded offset, whatever was written after it. */
  lemma {:induction false} ObjectPlace(bodies: seq<string>, id: nat) returns (rest: string)
    requires 1 <= id <= |bodies|
    ensures Objects(bodies) == Objects(bodies[..id - 1]) + (Object(id, bodies[id - 1]) + rest)
    decreases |bodies|
  {
    var n := |bodies|;
    var front := bodies[..n - 1];
    if id == n {
      rest := "";
      assert Object(n, bodies[n - 1]) + "" == Object(n, bodies[n - 1]);
    } else {
      var rest' := ObjectPlace(front, id);
      rest := rest' + Object(n, bodies[n - 1]);
      assert front[..id - 1] == bodies[..id - 1];
      Associative(Objects(bodies[..id - 1]), Object(id, bodies[id - 1]) + rest', Object(n, bodies[n - 1]));
      Associative(Object(id, bodies[id - 1]), rest', Object(n, bodies[n - 1]));
    }
  }

  lemma ObjectSplit(id: nat, body: string, tail: string)
    ensures Object(id, body) + tail == Digits(id) + (" 0 obj\n" + (body + "\nendobj\n" + tail))
  {
  }

  /** What a reader sees from the object's first byte on. */
  lemma ObjectBytes(front: string, id: nat, body: string, rest: string, after: string)
    ensures (front + (Object(id, body) + rest) + after)[|front|..]
         == Digits(id) + (" 0 obj\n" + (body + "\nendobj\n" + (rest + after)))
  {
    hide Object;
    Associative(front, Object(id, body) + rest, after);
    Associative(Object(id, body), rest, after);
    var shown := Object(id, body) + (rest + after);
    assert (front + shown)[|front|..] == shown;
    ObjectSplit(id, body, rest + after);
  }

  /** A reader that follows entry id lands on `id 0 obj` and sees that object's body. */
  lemma ObjectFound(bodies: seq<string>, id: nat, buf: string, table: Table, after: string) returns (rest: string)
    requires 1 <= id <= |bodies|
    requires buf == Objects(bodies) + after
    requires ReadEntry(buf, table, id) == Some(Offset(bodies, id))
    ensures ReadObject(buf, table, id) == Some(bodies[id - 1] + "\nendobj\n" + rest)
  {
    var rest' := ObjectPlace(bodies, id);
    rest := rest' + after;
    var body := bodies[id - 1] + "\nendobj\n" + rest;
    ObjectBytes(Objects(bodies[..id - 1]), id, bodies[id - 1], rest', after);
    ReadPrinted(id, " 0 obj\n" + body);
    ExpectFound(" 0 obj\n", body);
  }

  // --- the end of the file ------------------------------------------------------------

  lemma {:induction false} LastPlace(s: string, lit: string, at: nat, k: nat)
    requires lit != "" && at <= k <= |s| && lit <= s[at..]
    requires forall j :: at < j < |s| ==> s[j] != lit[0]
    ensures LastIndexUpTo(s, lit, k) == Some(at)
  {
    if k > at {
      assert k < |s| ==> s[k..][0] == s[k];
      LastPlace(s, lit, at, k - 1);
    }
  }

  const TRAILER := "trailer\n<< /Size 6 /Root 1 0 R >>\n"

  lemma TailShape(xref: nat)
    ensures Tail(xref) == TRAILER + ("startxref\n" + Digits(xref) + "\n%%EOF")
  {
  }

  lemma OnlyTheFirstS(xref: nat)
    ensures 's' !in "tartxref\n" + Digits(xref) + "\n%%EOF"
  {
    PrintedDigits(xref);
    assert 's' !in "tartxref\n" && 's' !in "\n%%EOF";
  }

  /** After the writer's own startxref no byte is the first of that word. */
  lemma LastWord(front: string, xref: nat)
    ensures var buf, at := front + Tail(xref), |front| + |TRAILER|;
      && at <= |buf| && buf[at..] == "startxref\n" + Digits(xref) + "\n%%EOF"
      && forall j :: at < j < |buf| ==> buf[j] != 's'
  {
    var word := "tartxref\n" + Digits(xref) + "\n%%EOF";
    var buf, at := front + Tail(xref), |front| + |TRAILER|;
    TailShape(xref);
    hide Tail;
    assert buf[at..][1..] == word;
    OnlyTheFirstS(xref);
    forall j | at < j < |buf| ensures buf[j] != 's' {
      assert buf[j] == buf[at..][1..][j - at - 1];
      assert word[j - at - 1] in word;
    }
  }

  /** The reader finds the writer's own startxref, although the page may show that word. */
  lemma StartXrefFound(front: string, xref: nat)
    ensures StartXref(front + Tail(xref)) == Some(xref)
  {
    hide Tail, LastIndexUpTo;
    var buf, at := front + Tail(xref), |front| + |TRAILER|;
    LastWord(front, xref);
    LastPlace(buf, "startxref\n", at, |buf|);
    NumberFound("startxref\n", xref, "\n%%EOF");
  }

  lemma TrailerSplit(rest: string)
    ensures TRAILER + rest == "trailer\n<< /Size " + Digits(6) + (" /Root " + Digits(1) + (" 0 R >>\n" + rest))
  {
    var root := " /Root " + Digits(1) + " 0 R >>\n";
    assert TRAILER == "trailer\n<< /Size " + Digits(6) + root;
    Associative("trailer\n<< /Size " + Digits(6), root, rest);
    Associative(" /Root " + Digits(1), " 0 R >>\n", rest);
  }

  lemma TrailerFound(xref: nat)
    ensures Trailer(Tail(xref)) == Some((6, 1))
  {
    var rest := "startxref\n" + Digits(xref) + "\n%%EOF";
    var r3 := " 0 R >>\n" + rest;
    var r1 := " /Root " + Digits(1) + r3;
    TailShape(xref);
    TrailerSplit(rest);
    NumberFound("trailer\n<< /Size ", 6, r1);
    NumberFound(" /Root ", 1, r3);
    ExpectFound(" 0 R >>\n", rest);
  }

  lemma TableHeadFound(rest: string)
    ensures TableHead(XREF_HEAD + rest) == Some((6, rest))
  {
    assert XREF_HEAD + rest == "xref\n0 " + Digits(6) + ("\n" + rest);
    NumberFound("xref\n0 ", 6, "\n" + rest);
    ExpectFound("\n", rest);
  }

  // --- the whole file -----------------------------------------------------------------

  /** A file cut into its four parts, and the table the reader works with. */
  function Parts(objects: string, entries: string): string {
    objects + XREF_HEAD + entries + Tail(|objects|)
  }

  function TableOf(objects: string): Table {
    Table(|objects| + |XREF_HEAD|, 6)
  }

  /** The bytes from the first entry on. */
  lemma AfterHead(objects: string, entries: string)
    ensures var buf := Parts(objects, entries);
      && buf == objects + (XREF_HEAD + entries + Tail(|objects|))
      && buf[|objects|..] == XREF_HEAD + (entries + Tail(|objects|))
      && |buf| == TableOf(objects).first + |entries + Tail(|objects|)|
      && buf[TableOf(objects).first..] == entries + Tail(|objects|)
  {
    hide Tail, XREF_HEAD;
    var tail := Tail(|objects|);
    Associative(objects, XREF_HEAD, entries);
    Associative(objects, XREF_HEAD + entries, tail);
    Associative(XREF_HEAD, entries, tail);
    Suffix(objects, XREF_HEAD + (entries + tail));
    Associative(objects, XREF_HEAD, entries + tail);
    Suffix(objects + XREF_HEAD, entries + tail);
  }

  lemma Suffix(front: string, rest: string)
    ensures (front + rest)[|front|..] == rest
  {
  }

  lemma TableFound(objects: string, entries: string)
    ensures StartXref(Parts(objects, entries)) == Some(|objects|)
    ensures ReadTable(Parts(objects, entries), |objects|) == Some(TableOf(objects))
  {
    StartXrefFound(objects + XREF_HEAD + entries, |objects|);
    AfterHead(objects, entries);
    TableHeadFound(entries + Tail(|objects|));
  }

  lemma RootFound(objects: string, entries: string)
    requires |entries| == 120
    ensures ReadRoot(Parts(objects, entries), TableOf(objects)) == Some(1)
  {
    AfterHead(objects, entries);
    var buf, first := Parts(objects, entries), TableOf(objects).first;
    assert buf[first + 120..] == buf[first..][120..] == Tail(|objects|);
    TrailerFound(|objects|);
  }

  lemma EntryFound(objects: string, entries: string, id: nat, offset: nat)
    requires |entries| == 120 && id < 6 && offset < Power10(10)
    requires entries[20 * id..20 * id + 20] == Entry(offset)
    ensures ReadEntry(Parts(objects, entries), TableOf(objects), id) == Some(offset)
  {
    AfterHead(objects, entries);
    var buf, first := Parts(objects, entries), TableOf(objects).first;
    assert buf[first + 20 * id..first + 20 * id + 20] == buf[first..][20 * id..20 * id + 20] == Entry(offset);
    EntryRead(buf, TableOf(objects), id, offset);
  }

  /** Following any of the five entries gives that object. */
  lemma ObjectRead(bodies: seq<string>, id: nat) returns (rest: string)
    requires |bodies| == 5 && OffsetsFit(bodies) && 1 <= id <= 5
    ensures ReadObject(File(bodies), TableOf(Objects(bodies)), id) == Some(bodies[id - 1] + "\nendobj\n" + rest)
  {
    var objects, entries := Objects(bodies), Entries(bodies, 5);
    EntryPlace(bodies, 5, id);
    EntryFound(objects, entries, id, Offset(bodies, id));
    AfterHead(objects, entries);
    rest := ObjectFound(bodies, id, File(bodies), TableOf(objects), XREF_HEAD + entries + Tail(|objects|));
  }

  // --- opening the file -----------------------------------------------------------------

  lemma CatalogRead(rest: string)
    ensures ReadRef(CATALOG + rest, "<< /Type /Catalog /Pages ") == Some((2, " >>" + rest))
  {
    assert CATALOG == "<< /Type /Catalog /Pages " + Digits(2) + " 0 R" + " >>";
    Associative("<< /Type /Catalog /Pages " + Digits(2) + " 0 R", " >>", rest);
    RefFound("<< /Type /Catalog /Pages ", 2, " >>" + rest);
  }

  lemma PagesRead(rest: string)
    ensures ReadRef(PAGES + rest, "<< /Type /Pages /Kids [") == Some((3, "] /Count 1 >>" + rest))
  {
    assert PAGES == "<< /Type /Pages /Kids [" + Digits(3) + " 0 R" + "] /Count 1 >>";
    Associative("<< /Type /Pages /Kids [" + Digits(3) + " 0 R", "] /Count 1 >>", rest);
    RefFound("<< /Type /Pages /Kids [", 3, "] /Count 1 >>" + rest);
  }

  lemma PageRead(rest: string)
    ensures var end := " >> >> >>" + rest;
      var font := " /Resources << /Font << /F1 " + Digits(5) + " 0 R" + end;
      var content := " /MediaBox [0 0 612 792] /Contents " + Digits(4) + " 0 R" + font;
      && ReadRef(PAGE + rest, "<< /Type /Page /Parent ") == Some((2, content))
      && ReadRef(content, " /MediaBox [0 0 612 792] /Contents ") == Some((4, font))
      && ReadRef(font, " /Resources << /Font << /F1 ") == Some((5, end))
  {
    var end := " >> >> >>" + rest;
    var font := " /Resources << /Font << /F1 " + Digits(5) + " 0 R" + end;
    var content := " /MediaBox [0 0 612 792] /Contents " + Digits(4) + " 0 R" + font;
    var fontRef := " /Resources << /Font << /F1 " + Digits(5) + " 0 R";
    var contentRef := " /MediaBox [0 0 612 792] /Contents " + Digits(4) + " 0 R";
    var parentRef := "<< /Type /Page /Parent " + Digits(2) + " 0 R";
    assert parentRef == "<< /Type /Page /Parent 2 0 R";
    assert contentRef == " /MediaBox [0 0 612 792] /Contents 4 0 R";
    assert fontRef == " /Resources << /Font << /F1 5 0 R";
    assert PAGE == parentRef + (contentRef + (fontRef + " >> >> >>"));
    Associative(fontRef, " >> >> >>", rest);
    Associative(contentRef, fontRef + " >> >> >>", rest);
    Associative(parentRef, contentRef + (fontRef + " >> >> >>"), rest);
    RefFound("<< /Type /Page /Parent ", 2, content);
    RefFound(" /MediaBox [0 0 612 792] /Contents ", 4, font);
    RefFound(" /Resources << /Font << /F1 ", 5, end);
  }

  lemma FontRead(rest: string)
    ensures Expect(FONT + rest, "<< /Type /Font ").Some?
  {
  }

  /** While the offsets fit, a reader recovers the page's text. */
  lemma FittingFileOpens(text: string)
    requires OffsetsFit(Bodies(text))
    ensures ReadPageText(Document(text)) == Some(EndOfLinesRead(text))
  {
    var bodies := Bodies(text);
    var objects, entries := Objects(bodies), Entries(bodies, 5);
    EntryPlace(bodies, 5, 1);
    TableFound(objects, entries);
    RootFound(objects, entries);
    var catalog := ObjectRead(bodies, 1);
    CatalogRead("\nendobj\n" + catalog);
    Associative(CATALOG, "\nendobj\n", catalog);
    var pages := ObjectRead(bodies, 2);
    PagesRead("\nendobj\n" + pages);
    Associative(PAGES, "\nendobj\n", pages);
    var page := ObjectRead(bodies, 3);
    PageRead("\nendobj\n" + page);
    Associative(PAGE, "\nendobj\n", page);
    var content := ObjectRead(bodies, 4);
    StreamFound(ContentStream(text), content);
    var font := ObjectRead(bodies, 5);
    FontRead("\nendobj\n" + font);
    Associative(FONT, "\nendobj\n", font);
    ShownText(text);
  }

  /** Where the font object starts: a fixed part, the escaped text and the length printed
      before the stream. */
  lemma FontOffset(text: string)
    ensures Offset(Bodies(text), 5) == 320 + |Escape(text)| + |Digits(31 + |Escape(text)|)|
  {
    hide Object, StreamBody;
    var bodies := Bodies(text);
    FixedLengths();
    StreamLength(text);
    assert Objects(bodies[..0]) == HEADER;
    ObjectEnds(bodies, 1);
    ObjectEnds(bodies, 2);
    ObjectEnds(bodies, 3);
    ObjectEnds(bodies, 4);
  }

  lemma ObjectEnds(bodies: seq<string>, id: nat)
    requires 1 <= id <= |bodies|
    ensures |Objects(bodies[..id])| == |Objects(bodies[..id - 1])| + |Object(id, bodies[id - 1])|
  {
    assert bodies[..id][..id - 1] == bodies[..id - 1];
  }

  lemma FixedLengths()
    ensures |HEADER| == 9
    ensures |Object(1, CATALOG)| == 49 && |Object(2, PAGES)| == 57 && |Object(3, PAGE)| == 126
  {
  }

  lemma StreamLength(text: string)
    ensures |Object(4, StreamBody(ContentStream(text)))| == 79 + |Escape(text)| + |Digits(31 + |Escape(text)|)|
  {
    assert |ContentStream(text)| == 31 + |Escape(text)|;
  }

  // --- when it does not open --------------------------------------------------------------

  lemma {:induction false} OffsetsGrow(bodies: seq<string>, i: nat, j: nat)
    requires 1 <= i <= j <= |bodies|
    ensures Offset(bodies, i) <= Offset(bodies, j)
  {
    if i < j {
      assert bodies[..j - 1][..j - 2] == bodies[..j - 2];
      OffsetsGrow(bodies, i, j - 1);
    }
  }

  /** The entries take at least 20 bytes each, more when an offset does not fit. */
  lemma {:induction false} EntriesLength(bodies: seq<string>, k: nat)
    requires k <= |bodies|
    ensures |Entries(bodies, k)| >= 20 * k + 20
    ensures k > 0 && Offset(bodies, k) >= Power10(10) ==> |Entries(bodies, k)| > 20 * k + 20
    ensures 't' !in Entries(bodies, k)
  {
    if k > 0 {
      EntriesLength(bodies, k - 1);
      EntryShape(Offset(bodies, k));
    }
  }

  lemma LongEntries(objects: string, entries: string)
    requires |entries| > 120 && 't' !in entries
    ensures ReadRoot(Parts(objects, entries), TableOf(objects)) == None
  {
    AfterHead(objects, entries);
    var buf, first := Parts(objects, entries), TableOf(objects).first;
    assert buf[first + 120..][0] == buf[first..][120] == entries[120];
    assert entries[120] in entries;
  }

  /** Once an offset needs more than ten digits, its entry is longer than 20 bytes and
      this reader, looking for the trailer after six entries of 20, does not find it. */
  lemma OversizedFileFails(text: string)
    requires !OffsetsFit(Bodies(text))
    ensures ReadPageText(Document(text)) == None
  {
    var bodies := Bodies(text);
    var id :| 1 <= id <= 5 && Offset(bodies, id) >= Power10(10);
    OffsetsGrow(bodies, id, 5);
    EntriesLength(bodies, 5);
    TableFound(Objects(bodies), Entries(bodies, 5));
    LongEntries(Objects(bodies), Entries(bodies, 5));
  }

  lemma TenDigits(n: nat)
    ensures Power10(10) == 10_000_000_000
    ensures n < 10_000_000_000 ==> |Digits(n)| <= 10
    ensures n >= 1_000_000_000 ==> |Digits(n)| >= 10
  {
    assert Power10(2) == 100 && Power10(4) == 100 * Power10(2) && Power10(6) == 100 * Power10(4);
    assert Power10(8) == 100 * Power10(6) && Power10(9) == 10 * Power10(8);
    DigitCount(n, 9);
    DigitCount(n, 10);
  }

  lemma FitsWhen(text: string)
    ensures OffsetsFit(Bodies(text)) <==> |Escape(text)| < 9_999_999_670
  {
    var bodies := Bodies(text);
    FontOffset(text);
    TenDigits(31 + |Escape(text)|);
    if Offset(bodies, 5) < Power10(10) {
      forall id | 1 <= id <= 5 ensures Offset(bodies, id) < Power10(10) {
        OffsetsGrow(bodies, id, 5);
      }
    }
  }

  /** Exactly which texts a reader of the file recovers: those without a raw carriage
      return whose escaped form leaves the last object below byte ten to the ten. */
  lemma RoundTrip(text: string)
    ensures ReadPageText(Document(text)) == Some(text)
      <==> |Escape(text)| < 9_999_999_670 && '\r' !in text
  {
    FitsWhen(text);
    if OffsetsFit(Bodies(text)) {
      FittingFileOpens(text);
      ReadUnchanged(text);
    } else {
      OversizedFileFails(text);
    }
  }
}

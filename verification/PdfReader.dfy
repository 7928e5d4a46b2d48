/** A random-access reader for the certificate files, following ISO 32000-1:2008:
    sections 7.5.5 (trailer and startxref), 7.5.4 (cross-reference table with 20-byte
    entries), 7.3.10 (indirect objects), 7.3.8 (streams and /Length) and 7.3.4.2 (literal
    strings). It goes to the end of the file, jumps to the table, and from the root follows
    references to the page, its font and its content stream. Those parts are general; the
    keys of dictionaries and the operators of the page are expected in the layout the
    certificate writer uses. */
module PdfReader {
  import opened Common
  import opened Decimal

  /** What follows `lit`, if the bytes start with it. */
  function Expect(s: string, lit: string): Option<string> {
    if lit <= s then Some(s[|lit|..]) else None
  }

  // --- literal strings (section 7.3.4.2) --------------------------------------------

  predicate IsOctal(c: char) {
    '0' <= c <= '7'
  }

  /** How many octal digits, at most three, follow a backslash. */
  function OctalRun(s: string, limit: nat): (k: nat)
    ensures k <= |s| && k <= limit
    ensures k > 0 <==> limit > 0 && s != "" && IsOctal(s[0])
  {
    if limit > 0 && s != "" && IsOctal(s[0]) then 1 + OctalRun(s[1..], limit - 1) else 0
  }

  function OctalValue(s: string): nat {
    if s == "" then 0
    else 8 * OctalValue(s[..|s| - 1]) + (if IsOctal(s[|s| - 1]) then s[|s| - 1] as int - 48 else 0)
  }

  /** How many bytes an end-of-line marker at the front takes; 0 if there is none. */
  function EndOfLine(s: string): (k: nat)
    ensures k <= |s|
    ensures k > 0 <==> s != "" && (s[0] == '\r' || s[0] == '\n')
  {
    if "\r\n" <= s then 2 else if s != "" && (s[0] == '\r' || s[0] == '\n') then 1 else 0
  }

  /** The byte an escape letter stands for. */
  function NamedEscape(c: char): Option<char> {
    match c
    case 'n' => Some('\n')
    case 'r' => Some('\r')
    case 't' => Some('\t')
    case 'b' => Some('\U{08}')
    case 'f' => Some('\U{0C}')
    case '(' => Some('(')
    case ')' => Some(')')
    case '\\' => Some('\\')
    case _ => None
  }

  function Prepend(prefix: string, scanned: Option<(string, string)>): Option<(string, string)> {
    match scanned
    case None => None
    case Some((text, rest)) => Some((prefix + text, rest))
  }

  /** Scans a literal string whose opening parenthesis has been read and which has
      `depth` further parentheses open: its value, and the bytes after its end. */
  function ScanLiteral(s: string, depth: nat): Option<(string, string)>
    decreases |s|
  {
    if s == "" then None
    else if s[0] == ')' then
      if depth == 0 then Some(("", s[1..])) else Prepend(")", ScanLiteral(s[1..], depth - 1))
    else if s[0] == '(' then Prepend("(", ScanLiteral(s[1..], depth + 1))
    else if EndOfLine(s) > 0 then Prepend("\n", ScanLiteral(s[EndOfLine(s)..], depth))
    else if s[0] == '\\' then ScanEscape(s, depth)
    else Prepend([s[0]], ScanLiteral(s[1..], depth))
  }

  /** The part of the scan that starts at a backslash. */
  function ScanEscape(s: string, depth: nat): Option<(string, string)>
    requires s != "" && s[0] == '\\'
    decreases |s|, 0
  {
    var after := s[1..];
    if after == "" then None
    else if NamedEscape(after[0]).Some? then
      Prepend([NamedEscape(after[0]).value], ScanLiteral(after[1..], depth))
    else if EndOfLine(after) > 0 then ScanLiteral(after[EndOfLine(after)..], depth)
    else if OctalRun(after, 3) > 0 then
      var k := OctalRun(after, 3);
      Prepend([(OctalValue(after[..k]) % 256) as char], ScanLiteral(after[k..], depth))
    else ScanLiteral(after, depth)
  }

  // --- file structure (sections 7.5.4, 7.5.5, 7.3.10, 7.3.8) --------------------------

  /** The last place where `lit` occurs. */
  function LastIndex(s: string, lit: string): Option<nat> {
    LastIndexUpTo(s, lit, |s|)
  }

  function LastIndexUpTo(s: string, lit: string, k: nat): (r: Option<nat>)
    requires k <= |s|
    ensures r.Some? ==> r.value <= k
  {
    if lit <= s[k..] then Some(k)
    else if k == 0 then None
    else LastIndexUpTo(s, lit, k - 1)
  }

  /** The byte offset of the cross-reference table, from the end of the file. */
  function StartXref(buf: string): Option<nat> {
    var at :- LastIndex(buf, "startxref\n");
    var digits :- Expect(buf[at..], "startxref\n");
    var (offset, rest) :- ReadNat(digits);
    if rest == "\n%%EOF" then Some(offset) else None
  }

  datatype Table = Table(first: nat, size: nat)

  /** The header of a table with a single subsection that starts at object 0: the
      number of entries, and what follows. */
  function TableHead(s: string): Option<(nat, string)> {
    var r0 :- Expect(s, "xref\n0 ");
    var (size, r1) :- ReadNat(r0);
    var r2 :- Expect(r1, "\n");
    Some((size, r2))
  }

  function ReadTable(buf: string, xref: nat): Option<Table> {
    if xref > |buf| then None
    else
      var (size, rest) :- TableHead(buf[xref..]);
      if |rest| > |buf| then None else Some(Table(|buf| - |rest|, size))
  }

  /** The offset in the 20-byte entry of an object that is in use. */
  function ReadEntry(buf: string, table: Table, id: nat): Option<nat> {
    var at := table.first + 20 * id;
    if id >= table.size || at + 20 > |buf| then None
    else
      var digits := buf[at..at + 10];
      if DigitRun(digits) == 10 && buf[at + 10..at + 20] == " 00000 n \n" then Some(Value(digits)) else None
  }

  /** The /Size and /Root of a trailer. */
  function Trailer(s: string): Option<(nat, nat)> {
    var r0 :- Expect(s, "trailer\n<< /Size ");
    var (size, r1) :- ReadNat(r0);
    var r2 :- Expect(r1, " /Root ");
    var (root, r3) :- ReadNat(r2);
    var _ :- Expect(r3, " 0 R >>\n");
    Some((size, root))
  }

  /** The number of the root object, from the trailer that follows the table. */
  function ReadRoot(buf: string, table: Table): Option<nat> {
    var at := table.first + 20 * table.size;
    if at > |buf| then None
    else
      var (size, root) :- Trailer(buf[at..]);
      if size == table.size then Some(root) else None
  }

  /** The bytes after the header `id 0 obj` of an object, found through the table. */
  function ReadObject(buf: string, table: Table, id: nat): Option<string> {
    var offset :- ReadEntry(buf, table, id);
    if offset > |buf| then None
    else
      var (n, r) :- ReadNat(buf[offset..]);
      if n == id then Expect(r, " 0 obj\n") else None
  }

  /** A reference `n 0 R` after the given bytes: n, and what follows. */
  function ReadRef(s: string, before: string): Option<(nat, string)> {
    var r :- Expect(s, before);
    var (n, after) :- ReadNat(r);
    var rest :- Expect(after, " 0 R");
    Some((n, rest))
  }

  /** The bytes of a stream object: exactly /Length of them, and the keyword after. */
  function ReadStream(s: string): Option<string> {
    var r0 :- Expect(s, "<< /Length ");
    var (n, r1) :- ReadNat(r0);
    var data :- Expect(r1, " >>\nstream\n");
    if n > |data| then None
    else
      var _ :- Expect(data[n..], "\nendstream\nendobj\n");
      Some(data[..n])
  }

  /** The string that a page content stream shows. */
  function ReadShownText(data: string): Option<string> {
    var r :- Expect(data, "BT\n/F1 14 Tf\n72 720 Td\n(");
    var (text, rest) :- ScanLiteral(r, 0);
    if rest == " Tj\nET" then Some(text) else None
  }

  /** Opens the file and returns the text its single page shows. */
  function ReadPageText(buf: string): Option<string> {
    var xref :- StartXref(buf);
    var table :- ReadTable(buf, xref);
    var root :- ReadRoot(buf, table);
    var catalog :- ReadObject(buf, table, root);
    var (pagesId, _) :- ReadRef(catalog, "<< /Type /Catalog /Pages ");
    var pages :- ReadObject(buf, table, pagesId);
    var (pageId, _) :- ReadRef(pages, "<< /Type /Pages /Kids [");
    var page :- ReadObject(buf, table, pageId);
    var (parentId, r0) :- ReadRef(page, "<< /Type /Page /Parent ");
    var (contentId, r1) :- ReadRef(r0, " /MediaBox [0 0 612 792] /Contents ");
    var (fontId, _) :- ReadRef(r1, " /Resources << /Font << /F1 ");
    var font :- ReadObject(buf, table, fontId);
    var _ :- Expect(font, "<< /Type /Font ");
    var content :- ReadObject(buf, table, contentId);
    var data :- ReadStream(content);
    if parentId == pagesId then ReadShownText(data) else None
  }
}

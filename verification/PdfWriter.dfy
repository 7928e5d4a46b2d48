/** The certificate PDF writer (internal/certificate/pdf.go): it appends objects to a
    buffer, remembers where each one starts and ends with a cross-reference table.

    A byte is represented by the character with that code, so a Go string is a
    `string` here and every length is a number of bytes. */
module PdfWriter {
  import opened Decimal

  // --- what the writer puts out -------------------------------------------------

  function EscapeByte(c: char): string {
    match c
    case '(' => "\\("
    case ')' => "\\)"
    case '\\' => "\\\\"
    case '\n' => "\\n"
    case _ => [c]
  }

  function Escape(s: string): string {
    if s == "" then "" else EscapeByte(s[0]) + Escape(s[1..])
  }

  const HEADER := "%PDF-1.4\n"
  const CONTENT_OPEN := "BT\n/F1 14 Tf\n72 720 Td\n("
  const CONTENT_CLOSE := ") Tj\nET"

  function ContentStream(text: string): string {
    CONTENT_OPEN + Escape(text) + CONTENT_CLOSE
  }

  /** One indirect object. */
  function Object(id: nat, body: string): string {
    Digits(id) + " 0 obj\n" + body + "\nendobj\n"
  }

  function StreamBody(data: string): string {
    "<< /Length " + Digits(|data|) + " >>\nstream\n" + data + "\nendstream"
  }

  const CATALOG := "<< /Type /Catalog /Pages 2 0 R >>"
  const PAGES := "<< /Type /Pages /Kids [3 0 R] /Count 1 >>"
  const PAGE := "<< /Type /Page /Parent 2 0 R"
                + (" /MediaBox [0 0 612 792] /Contents 4 0 R"
                   + (" /Resources << /Font << /F1 5 0 R" + " >> >> >>"))
  const FONT := "<< /Type /Font /Subtype /Type1 /BaseFont /Helvetica >>"

  /** The bodies of objects 1 to 5. */
  function Bodies(text: string): seq<string> {
    [CATALOG, PAGES, PAGE, StreamBody(ContentStream(text)), FONT]
  }

  /** The header followed by the objects numbered from 1. */
  function Objects(bodies: seq<string>): string {
    if bodies == [] then HEADER
    else Objects(bodies[..|bodies| - 1]) + Object(|bodies|, bodies[|bodies| - 1])
  }

  /** Where object id starts. */
  function Offset(bodies: seq<string>, id: nat): nat
    requires 1 <= id <= |bodies|
  {
    |Objects(bodies[..id - 1])|
  }

  const XREF_HEAD := "xref\n0 6\n"
  const FREE_ENTRY := "0000000000 65535 f \n"

  function Entry(offset: nat): string {
    Padded(offset, 10) + " 00000 n \n"
  }

  /** The table's free entry and the in-use entries of objects 1 to k. */
  function Entries(bodies: seq<string>, k: nat): string
    requires k <= |bodies|
  {
    if k == 0 then FREE_ENTRY else Entries(bodies, k - 1) + Entry(Offset(bodies, k))
  }

  function Tail(xref: nat): string {
    "trailer\n<< /Size 6 /Root 1 0 R >>\nstartxref\n" + Digits(xref) + "\n%%EOF"
  }

  function File(bodies: seq<string>): string
    requires |bodies| == 5
  {
    Objects(bodies) + XREF_HEAD + Entries(bodies, 5) + Tail(|Objects(bodies)|)
  }

  function Document(text: string): string {
    File(Bodies(text))
  }

  // --- the writer itself ----------------------------------------------------------

  lemma {:induction false} EscapeLast(s: string, c: char)
    ensures Escape(s + [c]) == Escape(s) + EscapeByte(c)
  {
    var whole := s + [c];
    if s == "" {
      assert whole[1..] == "";
      assert EscapeByte(c) + "" == EscapeByte(c);
    } else {
      assert whole[1..] == s[1..] + [c];
      EscapeLast(s[1..], c);
      Associative(EscapeByte(s[0]), Escape(s[1..]), EscapeByte(c));
    }
  }

  lemma Associative(a: string, b: string, c: string)
    ensures a + b + c == a + (b + c)
  {
  }

  method PdfEscape(s: string) returns (out: string)
    ensures out == Escape(s)
  {
    out := "";
    for i := 0 to |s|
      invariant out == Escape(s[..i])
    {
      EscapeLast(s[..i], s[i]);
      assert s[..i] + [s[i]] == s[..i + 1];
      if s[i] == '(' || s[i] == ')' || s[i] == '\\' {
        out := out + ['\\', s[i]];
      } else if s[i] == '\n' {
        out := out + ['\\', 'n'];
      } else {
        out := out + [s[i]];
      }
    }
    assert s[..|s|] == s;
  }

  class PdfDoc {
    var buf: string
    var offsets: seq<nat>
    ghost var bodies: seq<string>

    /** The buffer holds the header and the objects written so far, and offsets[i] is
        where object i starts; offsets[0] is the unused slot the writer reserves. */
    ghost predicate InObjects()
      reads this
    {
      && buf == Objects(bodies)
      && OffsetsRecorded()
    }

    ghost predicate OffsetsRecorded()
      reads this
    {
      && |offsets| == |bodies| + 1
      && forall i :: 1 <= i <= |bodies| ==> offsets[i] == Offset(bodies, i)
    }

    constructor ()
      ensures buf == "" && offsets == [0] && bodies == []
    {
      buf, offsets, bodies := "", [0], [];
    }

    method Write(s: string)
      modifies this`buf
      ensures buf == old(buf) + s
    {
      buf := buf + s;
    }

    method ObjStart(id: nat, body: string)
      requires InObjects() && id == |bodies| + 1
      modifies this
      ensures InObjects() && bodies == old(bodies) + [body]
      ensures buf == old(buf) + Object(id, body)
    {
      offsets := offsets + [|buf|];
      Write(Digits(id) + " 0 obj\n" + body + "\nendobj\n");
      ghost var before := bodies;
      bodies := bodies + [body];
      forall i | 1 <= i <= |before|
        ensures Offset(bodies, i) == Offset(before, i)
      {
        assert bodies[..i - 1] == before[..i - 1];
      }
      assert bodies[..|bodies| - 1] == before;
    }
  }

  /** The table: a free entry, then one in-use entry per object, from the offsets. */
  method WriteEntries(d: PdfDoc)
    requires |d.bodies| == 5 && d.OffsetsRecorded()
    modifies d`buf
    ensures d.buf == old(d.buf) + Entries(d.bodies, 5)
  {
    d.Write(FREE_ENTRY);
    for i := 1 to 6
      invariant d.buf == old(d.buf) + Entries(d.bodies, i - 1)
    {
      d.Write(Padded(d.offsets[i], 10) + " 00000 n \n");
      Associative(old(d.buf), Entries(d.bodies, i - 1), Entry(d.offsets[i]));
    }
  }

  method MinimalPdf(text: string) returns (out: string)
    ensures out == Document(text)
  {
    hide Object, StreamBody;
    var d := new PdfDoc();
    d.Write(HEADER);
    var escaped := PdfEscape(text);
    var contentStream := CONTENT_OPEN + escaped + CONTENT_CLOSE;
    d.ObjStart(1, CATALOG);
    d.ObjStart(2, PAGES);
    d.ObjStart(3, PAGE);
    d.ObjStart(4, StreamBody(contentStream));
    d.ObjStart(5, FONT);
    assert d.bodies == Bodies(text);
    var xref := |d.buf|;
    d.Write(XREF_HEAD);
    WriteEntries(d);
    d.Write(Tail(xref));
    out := d.buf;
  }
}

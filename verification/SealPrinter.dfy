/** The text that backend/handlers/seal.go prints around its inputs, line by line, and the loops and buffers that
    print it. */
module SealPrinter {
  import opened Common
  import opened PdfSearch
  import Canonical
  import Seal

  // ---------- the text ----------

  const ENDOBJ: Bytes := "\nendobj\n"
  const BOX: Bytes := " /MediaBox [0 0 595 842]"
  const CONTENTS: Bytes := " /Contents 10001 0 R"
  const RESOURCES: Bytes := " /Resources << /Font <<"
  const FONT: Bytes := " << /Type /Font /Subtype /Type1"
  const HELVETICA: Bytes := " /BaseFont /Helvetica"
  const FILESPEC: Bytes := "<< /Type /Filespec /F (audit-manifest.json)" + " /EF << /F 10101 0 R >> >>"

  function PageDictionary(): Bytes {
    "<< /Type /Page" + BOX + CONTENTS + RESOURCES + " /F1" + FONT + HELVETICA + " >> /F1B" + FONT + HELVETICA +
    "-Bold >> >> >> >>"
  }

  function Dec(n: nat): Bytes {
    Canonical.Decimal(n)
  }

  function Zeros(n: nat): Bytes {
    seq(n, _ => '0')
  }

  /** %010d */
  function Pad10(n: nat): Bytes {
    if |Dec(n)| >= 10 then Dec(n) else Zeros(10 - |Dec(n)|) + Dec(n)
  }

  /** Lines, each opened by its line feed. */
  function Text(lines: seq<Bytes>): Bytes {
    if lines == [] then "" else Text(lines[..|lines| - 1]) + Line(lines[|lines| - 1])
  }

  function XrefLines(first: Bytes, at1: nat, at2: nat, size: Bytes, startXref: nat): seq<Bytes> {
    ["xref", first + " 2", Pad10(at1) + " 00000 n ", Pad10(at2) + " 00000 n ", "trailer",
     "<< /Size " + size + " /Root 1 0 R >>", "startxref", Dec(startXref), ""]
  }

  function ContentLines(content: Bytes): seq<Bytes> {
    ["10001 0 obj", "<< /Length " + Dec(|content|) + " >>", "stream", content]
  }

  function PageLines(): seq<Bytes> {
    ["10002 0 obj", PageDictionary(), "endobj", ""]
  }

  function CertificateXref(at1: nat, at2: nat, startXref: nat): Bytes {
    Text(XrefLines("10001", at1, at2, "10003", startXref))
  }

  function MiddleLine(n: nat): Bytes {
    " /Subtype /application#2Fjson" + " /Length " + Dec(n) + " >>"
  }

  /** From the dictionary's type to the line that opens the stream. */
  function Middle(n: nat): Bytes {
    MiddleLine(n) + "\n"
  }

  const OPENING: Bytes := ATTACHED + "\n<< "

  function ContentOpen(content: Bytes): Bytes {
    Text(ContentLines(content))
  }

  /** What closes the content stream, the page object, and the cross-reference section. */
  function Closing(at: nat, end: nat): Bytes {
    var pageAt := end + |ENDSTREAM| + |ENDOBJ|;
    var page := Text(PageLines());
    ENDSTREAM + ENDOBJ + page + CertificateXref(at, pageAt, pageAt + |page|)
  }

  function AttachHead(n: nat): Bytes {
    OPENING + EMBEDDED + Middle(n) + STREAM
  }

  function FilespecLines(): seq<Bytes> {
    ["10102 0 obj", FILESPEC, "endobj", ""]
  }

  function AttachXref(at1: nat, at2: nat, startXref: nat): Bytes {
    Text(XrefLines("10101", at1, at2, "10103", startXref))
  }

  function AttachRest(at: nat, end: nat): Bytes {
    var specAt := end + |ENDSTREAM| + |ENDOBJ|;
    var spec := Text(FilespecLines());
    ENDOBJ + spec + AttachXref(at, specAt, specAt + |spec|) + EOF + "\n"
  }

  const PRINTED: Seal.Layout := Seal.Layout(ContentOpen, Closing, AttachHead, AttachRest)

  // ---------- the text is clean ----------

  lemma {:induction false} TextAbsent(lines: seq<Bytes>, p: Bytes)
    requires NewlineOnlyFirst(p)
    ensures Absent(Text(lines), p) <==> forall k | 0 <= k < |lines| :: Absent(Line(lines[k]), p)
  {
    if lines == [] {
    } else {
      var n := |lines| - 1;
      TextAbsent(lines[..n], p);
      AbsentJoin(Text(lines[..n]), Line(lines[n]), p);
    }
  }

  /** A line of the printer's own: it holds no other line feed, no capital E, no quote, and does not begin like the
      attachment. */
  ghost predicate Plain(l: Bytes) {
    '\n' !in l && 'E' !in l && '"' !in l && (|l| < 11 || l[0] != '1' || l[2] != '1' || l[4] != '1' || l[5] != ' ')
  }

  lemma PlainLine(l: Bytes)
    requires Plain(l)
    ensures Absent(Line(l), EMBEDDED) && Absent(Line(l), ATTACHED) && Absent(Line(l), ENVELOPE)
  {
    assert EMBEDDED[7] == 'E';
    assert 'E' !in Line(l);
    LacksChar(Line(l), EMBEDDED, 7);
    assert ENVELOPE[0] == '"';
    assert '"' !in Line(l);
    LacksChar(Line(l), ENVELOPE, 0);
    forall i ensures !At(Line(l), ATTACHED, i) {
      if At(Line(l), ATTACHED, i) {
        AtChar(Line(l), ATTACHED, i, 0);
        assert i == 0;
        AtChar(Line(l), ATTACHED, 0, 1);
        AtChar(Line(l), ATTACHED, 0, 3);
        AtChar(Line(l), ATTACHED, 0, 5);
        AtChar(Line(l), ATTACHED, 0, 6);
      }
    }
  }

  lemma DigitsPlain(n: nat)
    ensures forall c | c in Dec(n) :: '0' <= c <= '9'
    ensures forall c | c in Pad10(n) :: '0' <= c <= '9'
    ensures |Pad10(n)| >= 10
  {
  }

  lemma NumberPlain(l: Bytes)
    requires forall c | c in l :: '0' <= c <= '9'
    ensures Plain(l)
  {
    if |l| >= 11 { assert l[5] in l; }
  }

  lemma EntryPlain(l: Bytes)
    requires |l| >= 10 && forall c | c in l :: '0' <= c <= '9'
    ensures Plain(l + " 00000 n ")
  {
    assert l[5] in l;
  }

  lemma ObjectLinesPlain()
    ensures Plain("10001 0 obj") && Plain("10002 0 obj") && Plain("stream") && Plain("endstream") && Plain("endobj")
  {
  }

  lemma XrefLinesPlain()
    ensures Plain("") && Plain("xref") && Plain("10001 2") && Plain("trailer") && Plain("startxref")
  {
  }

  lemma SizePlain()
    ensures Plain("<< /Size " + "10003" + " /Root 1 0 R >>")
  {
  }

  lemma LengthPlain(n: nat)
    ensures Plain("<< /Length " + Dec(n) + " >>")
  {
    DigitsPlain(n);
  }

  ghost predicate Tame(s: Bytes) {
    '\n' !in s && 'E' !in s && '"' !in s
  }

  lemma TameWords()
    ensures Tame(" /F1") && Tame(" >> /F1B") && Tame("-Bold >> >> >> >>")
  {
  }

  lemma TameBox()
    ensures Tame(BOX)
  {
  }

  lemma TameContents()
    ensures Tame(CONTENTS)
  {
  }

  lemma TameResources()
    ensures Tame(RESOURCES)
  {
  }

  lemma TameFont()
    ensures Tame(FONT)
  {
  }

  lemma TameHelvetica()
    ensures Tame(HELVETICA)
  {
  }

  lemma PlainThenTame(l: Bytes, s: Bytes)
    requires Tame(l) && l != "" && l[0] == '<' && Tame(s)
    ensures Tame(l + s) && (l + s)[0] == '<'
  {
  }

  lemma PagePlain()
    ensures Plain(PageDictionary())
  {
    TameWords();
    TameBox();
    TameContents();
    TameResources();
    TameFont();
    TameHelvetica();
    var l := "<< /Type /Page";
    PlainThenTame(l, BOX);
    PlainThenTame(l + BOX, CONTENTS);
    PlainThenTame(l + BOX + CONTENTS, RESOURCES);
    l := l + BOX + CONTENTS + RESOURCES;
    PlainThenTame(l, " /F1");
    PlainThenTame(l + " /F1", FONT);
    PlainThenTame(l + " /F1" + FONT, HELVETICA);
    l := l + " /F1" + FONT + HELVETICA;
    PlainThenTame(l, " >> /F1B");
    PlainThenTame(l + " >> /F1B", FONT);
    PlainThenTame(l + " >> /F1B" + FONT, HELVETICA);
    PlainThenTame(l + " >> /F1B" + FONT + HELVETICA, "-Bold >> >> >> >>");
  }

  lemma TextStarts(lines: seq<Bytes>)
    requires lines != []
    ensures Opens(Text(lines))
  {
    if |lines| > 1 {
      TextStarts(lines[..|lines| - 1]);
    }
  }

  lemma ContentText(content: Bytes, p: Bytes)
    requires Marker(p)
    ensures Absent(Text(ContentLines(content)), p) <==> Absent(Line(content), p)
    ensures Opens(Text(ContentLines(content)))
  {
    Patterns();
    var lines := ContentLines(content);
    ObjectLinesPlain();
    XrefLinesPlain();
    LengthPlain(|content|);
    forall k | 0 <= k < 3 ensures Absent(Line(lines[k]), p) {
      PlainLine(lines[k]);
    }
    assert lines[3] == content;
    TextAbsent(lines, p);
    TextStarts(lines);
  }

  lemma PageText(p: Bytes)
    requires Marker(p)
    ensures Absent(Text(PageLines()), p) && Opens(Text(PageLines()))
  {
    Patterns();
    var lines := PageLines();
    ObjectLinesPlain();
    XrefLinesPlain();
    PagePlain();
    forall k | 0 <= k < |lines| ensures Absent(Line(lines[k]), p) {
      PlainLine(lines[k]);
    }
    TextAbsent(lines, p);
    TextStarts(lines);
  }

  lemma XrefText(at1: nat, at2: nat, startXref: nat, p: Bytes)
    requires Marker(p)
    ensures Absent(CertificateXref(at1, at2, startXref), p)
    ensures Opens(CertificateXref(at1, at2, startXref))
  {
    Patterns();
    var lines := XrefLines("10001", at1, at2, "10003", startXref);
    XrefLinesPlain();
    SizePlain();
    DigitsPlain(at1);
    DigitsPlain(at2);
    DigitsPlain(startXref);
    EntryPlain(Pad10(at1));
    EntryPlain(Pad10(at2));
    NumberPlain(Dec(startXref));
    forall k | 0 <= k < |lines| ensures Absent(Line(lines[k]), p) {
      PlainLine(lines[k]);
    }
    TextAbsent(lines, p);
    TextStarts(lines);
  }

  lemma CloseClean(p: Bytes)
    requires Marker(p)
    ensures Absent(ENDSTREAM, p) && Absent(ENDOBJ, p)
  {
    assert EMBEDDED[7] == 'E' && ATTACHED[1] == '1' && ENVELOPE[0] == '"';
    var k := if p == EMBEDDED then 7 else if p == ATTACHED then 1 else 0;
    LacksChar(ENDSTREAM, p, k);
    LacksChar(ENDOBJ, p, k);
  }

  lemma ClosingClean(at: nat, end: nat, p: Bytes)
    requires Marker(p)
    ensures Seal.ClosesContent(Closing(at, end), p)
  {
    var pageAt := end + |ENDSTREAM| + |ENDOBJ|;
    var g := Text(PageLines());
    var x := CertificateXref(at, pageAt, pageAt + |g|);
    Patterns();
    CloseClean(p);
    PageText(p);
    XrefText(at, pageAt, pageAt + |g|, p);
    JoinFour(ENDSTREAM, ENDOBJ, g, x, p);
    StreamAfterEnd(g + x);
    assert ENDSTREAM + ENDOBJ + g + x == ENDSTREAM + ENDOBJ + (g + x);
  }

  lemma StreamAfterEnd(rest: Bytes)
    ensures At(ENDSTREAM + ENDOBJ + rest, STREAM, 4)
  {
    assert (ENDSTREAM + ENDOBJ + rest)[4..11] == STREAM;
  }

  lemma OpeningShape()
    ensures Opens(OPENING) && '/' !in OPENING && 's' !in OPENING && '"' !in OPENING
  {
  }

  lemma TameSubtype()
    ensures Tame(" /Subtype /application#2Fjson")
  {
  }

  lemma TameLength()
    ensures Tame(" /Length ")
  {
  }

  lemma MiddleTame(n: nat)
    ensures Tame(MiddleLine(n)) && |MiddleLine(n)| >= 2 && MiddleLine(n)[|MiddleLine(n)| - 1] == '>'
  {
    TameSubtype();
    TameLength();
    DigitsPlain(n);
    assert Tame(Dec(n)) && Tame(" >>");
  }

  lemma MiddleShape(n: nat)
    ensures Shape(OPENING, Middle(n))
  {
    OpeningShape();
    MiddleTame(n);
  }

  lemma HeadOpens(n: nat)
    ensures Seal.OpensManifest(AttachHead(n))
  {
    MiddleShape(n);
    assert ATTACHED <= OPENING;
  }

  /** The printer's own text is clean, whatever the lengths and offsets printed in it. */
  lemma PrintedIsClean()
    ensures PRINTED.Clean()
  {
    forall content, p | Marker(p) ensures Seal.OpensContent(PRINTED.open(content), content, p) {
      ContentText(content, p);
    }
    forall at, end, p | Marker(p) ensures Seal.ClosesContent(PRINTED.closing(at, end), p) {
      ClosingClean(at, end, p);
    }
    forall n ensures Seal.OpensManifest(PRINTED.head(n)) {
      HeadOpens(n);
    }
  }

  // ---------- printing ----------

  lemma Text1(a: Bytes)
    ensures Text([a]) == "\n" + a
  {
    assert [a][..0] == [];
  }

  lemma Text2(a: Bytes, b: Bytes)
    ensures Text([a, b]) == "\n" + a + "\n" + b
  {
    Text1(a);
    assert [a, b][..1] == [a];
  }

  lemma {:induction false} TextSplit(a: seq<Bytes>, b: seq<Bytes>)
    ensures Text(a + b) == Text(a) + Text(b)
    decreases |b|
  {
    if b == [] {
      assert a + b == a;
    } else {
      var n := |b| - 1;
      var all := a + b;
      TextSplit(a, b[..n]);
      assert all[..|all| - 1] == a + b[..n] && all[|all| - 1] == b[n];
      Associate(Text(a), Text(b[..n]), Line(b[n]));
    }
  }

  lemma Text4(a: Bytes, b: Bytes, c: Bytes, d: Bytes)
    ensures Text([a, b, c, d]) == "\n" + a + "\n" + b + ("\n" + c + "\n" + d)
  {
    Text2(a, b);
    Text2(c, d);
    TextSplit([a, b], [c, d]);
    assert [a, b] + [c, d] == [a, b, c, d];
  }

  lemma ContentFormat(content: Bytes)
    ensures ContentOpen(content) == "\n10001 0 obj" + ("\n<< /Length " + Dec(|content|) + " >>") +
      ("\nstream\n" + content)
  {
    var length := "<< /Length " + Dec(|content|) + " >>";
    Text4("10001 0 obj", length, "stream", content);
    LengthFormat(Dec(|content|));
    assert "\n10001 0 obj" == "\n" + "10001 0 obj";
    assert "\nstream\n" == "\n" + "stream" + "\n";
  }

  lemma LengthFormat(n: Bytes)
    ensures "\n<< /Length " + n + " >>" == "\n" + ("<< /Length " + n + " >>")
  {
    assert "\n<< /Length " == "\n" + "<< /Length ";
  }

  lemma PageFormat()
    ensures Text(PageLines()) == "\n10002 0 obj\n" + PageDictionary() + ENDOBJ
  {
    Text4("10002 0 obj", PageDictionary(), "endobj", "");
    assert "\n10002 0 obj\n" == "\n" + "10002 0 obj" + "\n";
    assert "\n" + "endobj" + "\n" + "" == ENDOBJ;
  }

  lemma FilespecFormat()
    ensures Text(FilespecLines()) == "\n10102 0 obj\n" + FILESPEC + ENDOBJ
  {
    Text4("10102 0 obj", FILESPEC, "endobj", "");
    assert "\n10102 0 obj\n" == "\n" + "10102 0 obj" + "\n";
    assert "\n" + "endobj" + "\n" + "" == ENDOBJ;
  }

  lemma XrefFormat(first: Bytes, at1: nat, at2: nat, size: Bytes, startXref: nat)
    ensures Text(XrefLines(first, at1, at2, size, startXref)) ==
            "\nxref\n" + (first + " 2") + ("\n" + (Pad10(at1) + " 00000 n ") + "\n" + (Pad10(at2) + " 00000 n ")) +
            ("\ntrailer\n" + ("<< /Size " + size + " /Root 1 0 R >>")) + ("\nstartxref\n" + Dec(startXref) + "\n")
  {
    var a, b := ["xref", first + " 2"], [Pad10(at1) + " 00000 n ", Pad10(at2) + " 00000 n "];
    var c, d := ["trailer", "<< /Size " + size + " /Root 1 0 R >>"], ["startxref", Dec(startXref)];
    assert XrefLines(first, at1, at2, size, startXref) == a + b + c + (d + [""]);
    TextSplit(a + b + c, d + [""]);
    TextSplit(a + b, c);
    TextSplit(a, b);
    Text2(b[0], b[1]);
    XrefPieces(first, "<< /Size " + size + " /Root 1 0 R >>", Dec(startXref));
  }

  lemma XrefPieces(first: Bytes, size: Bytes, start: Bytes)
    ensures Text(["xref", first + " 2"]) == "\nxref\n" + (first + " 2")
    ensures Text(["trailer", size]) == "\ntrailer\n" + size
    ensures Text(["startxref", start] + [""]) == "\nstartxref\n" + start + "\n"
  {
    Text2("xref", first + " 2");
    Text2("trailer", size);
    Text2("startxref", start);
    TextSplit(["startxref", start], [""]);
    Text1("");
    assert "\nxref\n" == "\n" + "xref" + "\n";
    assert "\ntrailer\n" == "\n" + "trailer" + "\n";
    assert "\nstartxref\n" == "\n" + "startxref" + "\n";
  }

  /** The cross-reference section that both updates end with. */
  method PrintXref(first: Bytes, at1: nat, at2: nat, size: Bytes, startXref: nat) returns (buf: Bytes)
    ensures buf == Text(XrefLines(first, at1, at2, size, startXref))
  {
    buf := "\nxref\n" + (first + " 2");
    buf := buf + ("\n" + (Pad10(at1) + " 00000 n ") + "\n" + (Pad10(at2) + " 00000 n "));
    buf := buf + ("\ntrailer\n" + ("<< /Size " + size + " /Root 1 0 R >>"));
    buf := buf + ("\nstartxref\n" + Dec(startXref) + "\n");
    XrefFormat(first, at1, at2, size, startXref);
  }

  method UpdateBase(src: Bytes) returns (base: Bytes)
    ensures base == Body(src)
  {
    var eofIdx := LastIndex(src, EOF, |src|);
    if eofIdx < 0 { eofIdx := |src|; }
    base := src[..eofIdx];
  }

  method PrintContent(content: Bytes) returns (buf: Bytes)
    ensures buf == ContentOpen(content)
  {
    buf := "\n10001 0 obj" + ("\n<< /Length " + Dec(|content|) + " >>") + ("\nstream\n" + content);
    ContentFormat(content);
  }

  method PrintPage() returns (buf: Bytes)
    ensures buf == Text(PageLines())
  {
    buf := "\n10002 0 obj\n" + PageDictionary() + ENDOBJ;
    PageFormat();
  }

  method PrintClosing(at: nat, end: nat) returns (buf: Bytes)
    ensures buf == Closing(at, end)
  {
    buf := ENDSTREAM + ENDOBJ;
    var pageStart := end + |buf|;
    var page := PrintPage();
    buf := buf + page;
    var xref := PrintXref("10001", at, pageStart, "10003", end + |buf|);
    ClosingParts(at, end, page, xref);
    buf := buf + xref;
  }

  lemma ClosingParts(at: nat, end: nat, page: Bytes, xref: Bytes)
    requires page == Text(PageLines())
    requires var pageAt := end + |ENDSTREAM| + |ENDOBJ|; xref == CertificateXref(at, pageAt, pageAt + |page|)
    ensures Closing(at, end) == ENDSTREAM + ENDOBJ + page + xref
  {
  }

  method AppendCertificatePage(src: Bytes, content: Bytes) returns (buf: Bytes)
    ensures buf == Seal.Certificate(PRINTED, src, content)
  {
    buf := UpdateBase(src);
    var contentStart := |buf|;
    var stream := PrintContent(content);
    buf := buf + stream;
    var closing := PrintClosing(contentStart, |buf|);
    Seal.CertificateParts(PRINTED, src, content, buf, closing);
    buf := buf + closing;
    buf := buf + EOF + "\n";
  }

  method PrintFilespec() returns (buf: Bytes)
    ensures buf == Text(FilespecLines())
  {
    buf := "\n10102 0 obj\n" + FILESPEC + ENDOBJ;
    FilespecFormat();
  }

  method PrintRest(at: nat, end: nat) returns (buf: Bytes)
    ensures buf == AttachRest(at, end)
  {
    buf := ENDOBJ;
    var specStart := end + |ENDSTREAM| + |buf|;
    var spec := PrintFilespec();
    buf := buf + spec;
    var xref := PrintXref("10101", at, specStart, "10103", specStart + |spec|);
    RestParts(at, end, spec, xref);
    buf := buf + xref;
    buf := buf + EOF + "\n";
  }

  lemma RestParts(at: nat, end: nat, spec: Bytes, xref: Bytes)
    requires spec == Text(FilespecLines())
    requires var specAt := end + |ENDSTREAM| + |ENDOBJ|; xref == AttachXref(at, specAt, specAt + |spec|)
    ensures AttachRest(at, end) == ENDOBJ + spec + xref + EOF + "\n"
  {
  }

  method PrintHead(n: nat) returns (buf: Bytes)
    ensures buf == AttachHead(n)
  {
    buf := ATTACHED + "\n<< " + EMBEDDED + Middle(n) + STREAM;
  }

  method PrintSection(at: nat, manifest: Bytes) returns (buf: Bytes)
    ensures buf == Seal.Section(PRINTED, at, manifest)
  {
    buf := PrintHead(|manifest|);
    ghost var head := buf;
    buf := buf + manifest;
    var rest := PrintRest(at, at + |buf|);
    SectionParts(at, manifest, head, rest);
    buf := buf + ENDSTREAM;
    buf := buf + rest;
  }

  lemma SectionParts(at: nat, manifest: Bytes, head: Bytes, rest: Bytes)
    requires head == AttachHead(|manifest|) && rest == AttachRest(at, at + |head + manifest|)
    ensures Seal.Section(PRINTED, at, manifest) == head + manifest + ENDSTREAM + rest
  {
    Seal.SectionParts(PRINTED, at, manifest, head, rest);
  }

  method AttachManifest(src: Bytes, manifest: Bytes) returns (buf: Bytes)
    ensures buf == Seal.Attach(PRINTED, src, manifest)
  {
    buf := UpdateBase(src);
    var section := PrintSection(|buf|, manifest);
    buf := buf + section;
  }

  /** buildSealedPDF from the source's bytes and the certificate's text on. */
  method BuildSealed(codec: Seal.Codec, src: Bytes, content: Bytes) returns (sealed: Bytes)
    ensures sealed == Seal.SealedPdf(PRINTED, codec, src, content)
  {
    var certificate := AppendCertificatePage(src, content);
    var certBase := UpdateBase(certificate);
    sealed := AttachManifest(certificate, codec.manifest(codec.digest(certBase)));
  }

  /** What BuildSealed writes: for all inputs, the digest check passes whenever the manifest is recoverable and no input
      holds an attachment marker. */
  lemma PrintedSealVerifies(codec: Seal.Codec, src: Bytes, content: Bytes)
    requires codec.Sound(codec.digest(Seal.CertBase(PRINTED, src, content)))
    requires Seal.Recoverable(PRINTED, codec, src, content) && Seal.NoAttachment(src, content)
    ensures Seal.Verify(codec, Seal.SealedPdf(PRINTED, codec, src, content)) == Some(true)
  {
    PrintedIsClean();
    Seal.SealThenVerify(PRINTED, codec, src, content, "");
    assert Seal.SealedPdf(PRINTED, codec, src, content) + "" == Seal.SealedPdf(PRINTED, codec, src, content);
  }

  // ---------- PDF string literals ----------

  predicate Special(c: char) {
    c == '(' || c == ')' || c == '\\'
  }

  /** The character a reader sees: all but ASCII below DEL becomes a question mark. */
  function Shown(c: char): char {
    if c > 126 as char then '?' else c
  }

  function Escape(c: char): Bytes {
    if Special(c) then ['\\', c] else [Shown(c)]
  }

  function Escaped(s: string): Bytes {
    if s == "" then "" else Escape(s[0]) + Escaped(s[1..])
  }

  method PdfStr(s: string) returns (b: Bytes)
    ensures b == "(" + Escaped(s) + ")"
  {
    b := "(";
    for i := 0 to |s|
      invariant b + Escaped(s[i..]) == "(" + Escaped(s)
    {
      assert s[i..][1..] == s[i + 1..];
      assert Escaped(s[i..]) == Escape(s[i]) + Escaped(s[i + 1..]);
      ghost var start := b;
      Associate(b, Escape(s[i]), Escaped(s[i + 1..]));
      if Special(s[i]) {
        b := b + ['\\'];
        b := b + [s[i]];
      } else {
        b := b + [Shown(s[i])];
      }
      assert b == start + Escape(s[i]);
    }
    b := b + ")";
  }

  /** Reading a literal string after its opening parenthesis (section 7.3.4.2 of ISO 32000-1): the text up to the
      closing parenthesis and what follows it. A backslash makes the next character literal; nested parentheses and
      the other escapes never come out of the printer. */
  function ReadLiteral(b: Bytes): Option<(string, Bytes)> {
    if b == "" then None
    else if b[0] == ')' then Some(("", b[1..]))
    else if b[0] == '(' then None
    else if b[0] == '\\' then
      if |b| == 1 || !Special(b[1]) then None
      else
        match ReadLiteral(b[2..])
        case None => None
        case Some((text, rest)) => Some(([b[1]] + text, rest))
    else
      match ReadLiteral(b[1..])
      case None => None
      case Some((text, rest)) => Some(([b[0]] + text, rest))
  }

  function ShownText(s: string): string {
    seq(|s|, i requires 0 <= i < |s| => Shown(s[i]))
  }

  /** No name or title can end the literal it is printed in: a reader gets back exactly the text, with question marks
      for the characters that were replaced. */
  lemma {:induction false} LiteralReadsBack(s: string, rest: Bytes)
    ensures ReadLiteral(Escaped(s) + ")" + rest) == Some((ShownText(s), rest))
    ensures |ShownText(s)| == |s|
    ensures forall i | 0 <= i < |s| :: ShownText(s)[i] == if s[i] as int <= 126 then s[i] else '?'
  {
    var b := Escaped(s) + ")" + rest;
    if s == "" {
      assert b == ")" + rest;
    } else {
      LiteralReadsBack(s[1..], rest);
      var tail := Escaped(s[1..]) + ")" + rest;
      assert b == Escape(s[0]) + tail;
      assert b[|Escape(s[0])|..] == tail;
      assert ShownText(s) == [Shown(s[0])] + ShownText(s[1..]);
    }
  }
}

/** What a reader of the files that backend/handlers/seal.go appends to is told about them: where the cross-reference
    section is, where in the file the two objects it lists begin, and how long their streams are. */
module SealOffsets {
  import opened Common
  import opened PdfSearch
  import opened SealPrinter
  import Canonical
  import Seal

  // ---------- numbers ----------

  lemma {:induction false} ZerosAhead(k: nat, s: Bytes)
    ensures Canonical.Value(Zeros(k) + s) == Canonical.Value(s)
    decreases |s|, k
  {
    var t := Zeros(k) + s;
    if s != "" {
      ZerosAhead(k, s[..|s| - 1]);
      assert t[..|t| - 1] == Zeros(k) + s[..|s| - 1];
    } else if k > 0 {
      ZerosAhead(k - 1, s);
      assert t[..k - 1] == Zeros(k - 1) + s && t[k - 1] == '0';
    }
  }

  lemma DecReadsBack(n: nat)
    ensures Canonical.Value(Dec(n)) == n
  {
    Canonical.DigitsValue(n);
    assert "0"[..0] == "" && Canonical.Value("0") == Canonical.Value("") * 10;
  }

  /** A printed offset has at least ten digits and reads back as the number it was; it has exactly ten below 10^10. */
  lemma OffsetReadsBack(n: nat)
    ensures Canonical.Value(Pad10(n)) == n && |Pad10(n)| >= 10
    ensures |Pad10(n)| == 10 <==> n < 10_000_000_000
  {
    DecReadsBack(n);
    ZerosAhead(if |Dec(n)| < 10 then 10 - |Dec(n)| else 0, Dec(n));
    TenDigits(n);
  }

  lemma TenDigits(n: nat)
    ensures |Dec(n)| <= 10 <==> n < 10_000_000_000
  {
    assert Canonical.Pow10(5) == 100_000;
    assert Canonical.Pow10(10) == 100_000 * Canonical.Pow10(5);
    if n < 10_000_000_000 {
      Canonical.DigitsFit(n, 10);
    } else {
      DigitsNeeded(n, 10);
    }
  }

  lemma {:induction false} DigitsNeeded(n: nat, k: nat)
    requires n >= Canonical.Pow10(k)
    ensures |Canonical.Digits(n)| > k
  {
    if k > 0 {
      DigitsNeeded(n / 10, k - 1);
    }
  }

  // ---------- the two updates, object by object ----------

  function ContentObject(content: Bytes): Bytes {
    "\n10001 0 obj" + ("\n<< /Length " + Dec(|content|) + " >>") + ("\nstream\n" + content) + "\nendstream\nendobj\n"
  }

  function PageObject(): Bytes {
    "\n10002 0 obj\n" + PageDictionary() + "\nendobj\n"
  }

  function FileObject(manifest: Bytes): Bytes {
    "\n10101 0 obj" + "\n<< " + "/Type /EmbeddedFile" + (" /Subtype /application#2Fjson /Length " + Dec(|manifest|)) +
    " >>\nstream\n" + manifest + "\nendstream\nendobj\n"
  }

  function SpecificationObject(): Bytes {
    "\n10102 0 obj\n" + FILESPEC + "\nendobj\n"
  }

  /** A cross-reference section for two objects, and its trailer. */
  function Listing(first: Bytes, at1: nat, at2: nat, size: Bytes, xrefAt: nat): Bytes {
    "\nxref\n" + (first + " 2") + ("\n" + (Pad10(at1) + " 00000 n ") + "\n" + (Pad10(at2) + " 00000 n ")) +
    ("\ntrailer\n" + ("<< /Size " + size + " /Root 1 0 R >>")) + ("\nstartxref\n" + Dec(xrefAt) + "\n") + "%%EOF" + "\n"
  }

  /** In a file that is what an update keeps, one object, another one, and the section that lists them, the section's
      two entries are the offsets of the line feeds that open the objects, and the number behind "startxref" is the
      offset of the one that opens the section. */
  lemma EntriesLead(x: Bytes, base: Bytes, object1: Bytes, object2: Bytes, first: Bytes, size: Bytes, at2: nat,
                    xrefAt: nat)
    requires at2 == |base| + |object1| && xrefAt == at2 + |object2|
    requires x == base + object1 + object2 + Listing(first, |base|, at2, size, xrefAt)
    ensures x[..|base|] == base && x[|base|..at2] == object1 && x[at2..xrefAt] == object2
    ensures x[xrefAt..] == Listing(first, |base|, at2, size, xrefAt)
  {
    Slices(x, base, object1, object2, Listing(first, |base|, at2, size, xrefAt));
  }

  lemma Slices(x: Bytes, a: Bytes, b: Bytes, c: Bytes, d: Bytes)
    requires x == a + b + c + d
    ensures var j := |a| + |b|; var k := j + |c|; x[..|a|] == a && x[|a|..j] == b && x[j..k] == c && x[k..] == d
  {
  }

  lemma XrefIsListing(first: Bytes, at1: nat, at2: nat, size: Bytes, xrefAt: nat)
    ensures Text(XrefLines(first, at1, at2, size, xrefAt)) + EOF + "\n" == Listing(first, at1, at2, size, xrefAt)
  {
    XrefFormat(first, at1, at2, size, xrefAt);
  }

  lemma PageIsObject()
    ensures Text(PageLines()) == PageObject()
  {
    PageFormat();
  }

  lemma SpecificationIsObject()
    ensures Text(FilespecLines()) == SpecificationObject()
  {
    FilespecFormat();
  }

  lemma ContentIsObject(content: Bytes)
    ensures ContentOpen(content) + ENDSTREAM + ENDOBJ == ContentObject(content)
  {
    ContentFormat(content);
    assert ENDSTREAM + ENDOBJ == "\nendstream\nendobj\n";
    Associate(ContentOpen(content), ENDSTREAM, ENDOBJ);
  }

  lemma FileIsObject(manifest: Bytes)
    ensures AttachHead(|manifest|) + manifest + ENDSTREAM + ENDOBJ == FileObject(manifest)
  {
    HeadFormat(Dec(|manifest|));
    assert ENDSTREAM + ENDOBJ == "\nendstream\nendobj\n";
    Associate(AttachHead(|manifest|) + manifest, ENDSTREAM, ENDOBJ);
  }

  lemma HeadFormat(n: Bytes)
    ensures OPENING + EMBEDDED + (" /Subtype /application#2Fjson" + " /Length " + n + " >>" + "\n") + STREAM ==
      "\n10101 0 obj" + "\n<< " + "/Type /EmbeddedFile" + (" /Subtype /application#2Fjson /Length " + n) +
      " >>\nstream\n"
  {
    assert " /Subtype /application#2Fjson" + " /Length " == " /Subtype /application#2Fjson /Length ";
    assert " >>" + "\n" + STREAM == " >>\nstream\n";
  }

  /** The pieces as they are appended make up the objects. */
  lemma Assembled(base: Bytes, open: Bytes, end1: Bytes, end2: Bytes, object2: Bytes, xref: Bytes, eof: Bytes,
                  nl: Bytes, object1: Bytes, index: Bytes)
    requires open + end1 + end2 == object1 && xref + eof + nl == index
    ensures base + open + (end1 + end2 + object2 + xref) + eof + nl == base + object1 + object2 + index
    ensures base + (open + end1 + (end2 + object2 + xref + eof + nl)) == base + object1 + object2 + index
    ensures |base + open| + |end1| + |end2| == |base| + |object1|
  {
  }

  lemma CertificatePieces(src: Bytes, content: Bytes, base: Bytes, open: Bytes, page: Bytes, at2: nat, xref: Bytes)
    requires base == Body(src) && open == ContentOpen(content) && page == PageObject()
    requires at2 == |base + open| + |ENDSTREAM| + |ENDOBJ|
    requires xref == CertificateXref(|base|, at2, at2 + |page|)
    ensures Seal.Certificate(PRINTED, src, content) == base + open + (ENDSTREAM + ENDOBJ + page + xref) + EOF + "\n"
  {
    PageIsObject();
    var front := base + open;
    ClosingParts(|base|, |front|, page, xref);
    Seal.CertificateParts(PRINTED, src, content, front, Closing(|base|, |front|));
  }

  lemma AttachPieces(src: Bytes, manifest: Bytes, base: Bytes, head: Bytes, rest: Bytes)
    requires base == Body(src) && head == AttachHead(|manifest|)
    requires rest == AttachRest(|base|, |base| + |head + manifest|)
    ensures Seal.Attach(PRINTED, src, manifest) == base + (head + manifest + ENDSTREAM + rest)
  {
    SectionParts(|base|, manifest, head, rest);
  }

  lemma RestPieces(at: nat, end: nat, spec: Bytes, at2: nat, xref: Bytes)
    requires spec == SpecificationObject() && at2 == end + |ENDSTREAM| + |ENDOBJ|
    requires xref == AttachXref(at, at2, at2 + |spec|)
    ensures AttachRest(at, end) == ENDOBJ + spec + xref + EOF + "\n"
  {
    SpecificationIsObject();
    RestParts(at, end, spec, xref);
  }

  lemma AttachParts(src: Bytes, manifest: Bytes, base: Bytes, head: Bytes, spec: Bytes, at2: nat, xref: Bytes)
    requires base == Body(src) && head == AttachHead(|manifest|) && spec == SpecificationObject()
    requires at2 == |base| + |head + manifest| + |ENDSTREAM| + |ENDOBJ|
    requires xref == AttachXref(|base|, at2, at2 + |spec|)
    ensures Seal.Attach(PRINTED, src, manifest) ==
      base + (head + manifest + ENDSTREAM + (ENDOBJ + spec + xref + EOF + "\n"))
  {
    var end := |base| + |head + manifest|;
    var rest := AttachRest(|base|, end);
    AttachPieces(src, manifest, base, head, rest);
    RestPieces(|base|, end, spec, at2, xref);
  }

  /** The offsets printed in the certificate's update are those of its content stream and its page, and the printed
      length is that of the stream. */
  lemma CertificateIndexed(src: Bytes, content: Bytes, base: Bytes, object1: Bytes, page: Bytes, at2: nat, index: Bytes)
    requires base == Body(src) && object1 == ContentObject(content) && page == PageObject()
    requires at2 == |base| + |object1| && index == Listing("10001", |base|, at2, "10003", at2 + |page|)
    ensures Seal.Certificate(PRINTED, src, content) == base + object1 + page + index
  {
    var open, xref := ContentOpen(content), CertificateXref(|base|, at2, at2 + |page|);
    ContentIsObject(content);
    XrefIsListing("10001", |base|, at2, "10003", at2 + |page|);
    Assembled(base, open, ENDSTREAM, ENDOBJ, page, xref, EOF, "\n", object1, index);
    CertificatePieces(src, content, base, open, page, at2, xref);
  }

  /** And so are those printed in the manifest's update: of the embedded file and of its specification. */
  lemma AttachIndexed(src: Bytes, manifest: Bytes, base: Bytes, object1: Bytes, spec: Bytes, at2: nat, index: Bytes)
    requires base == Body(src) && object1 == FileObject(manifest) && spec == SpecificationObject()
    requires at2 == |base| + |object1| && index == Listing("10101", |base|, at2, "10103", at2 + |spec|)
    ensures Seal.Attach(PRINTED, src, manifest) == base + object1 + spec + index
  {
    var head, xref := AttachHead(|manifest|), AttachXref(|base|, at2, at2 + |spec|);
    FileIsObject(manifest);
    XrefIsListing("10101", |base|, at2, "10103", at2 + |spec|);
    Assembled(base, head + manifest, ENDSTREAM, ENDOBJ, spec, xref, EOF, "\n", object1, index);
    AttachParts(src, manifest, base, head, spec, at2, xref);
  }
}

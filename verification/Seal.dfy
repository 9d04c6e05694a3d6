/** backend/handlers/seal.go and verify.go: sealing appends two incremental updates (section 7.5.6 of ISO 32000-1) to
    a PDF, the certificate page and then the audit manifest; verifying finds the manifest again by scanning. The text
    of the updates is a parameter here, constrained to what the search can see of it. */
module Seal {
  import opened Common
  import opened PdfFallback
  import opened PdfSearch

  /** What is printed around the variable parts: before and after the certificate's text, before and after the
      manifest's bytes and their "endstream". The numbers are the offsets that end up in cross-reference tables. */
  datatype Layout = Layout(
    open: Bytes -> Bytes,
    closing: (nat, nat) -> Bytes,
    head: nat -> Bytes,
    rest: (nat, nat) -> Bytes)
  {
    /** The certificate page contributes a marker only where its text does, and its text is closed by "endstream". */
    ghost predicate Clean() {
      && (forall content, p | Marker(p) :: OpensContent(open(content), content, p))
      && (forall at, end, p | Marker(p) :: ClosesContent(closing(at, end), p))
      && (forall n :: OpensManifest(head(n)))
    }
  }

  ghost predicate OpensContent(text: Bytes, content: Bytes, p: Bytes) {
    Opens(text) && (Absent(text, p) <==> Absent(Line(content), p))
  }

  ghost predicate ClosesContent(text: Bytes, p: Bytes) {
    Opens(text) && Absent(text, p) && At(text, STREAM, 4)
  }

  ghost predicate OpensManifest(text: Bytes) {
    exists pre, mid :: ATTACHED <= pre && Shape(pre, mid) && text == pre + EMBEDDED + mid + STREAM
  }

  // ---------- the two updates ----------

  /** The certificate PDF up to its own end-of-file marker: the bytes whose digest is sealed. */
  function CertBase(layout: Layout, src: Bytes, content: Bytes): Bytes {
    var front := Body(src) + layout.open(content);
    front + layout.closing(|Body(src)|, |front|)
  }

  function Certificate(layout: Layout, src: Bytes, content: Bytes): Bytes {
    CertBase(layout, src, content) + EOF + "\n"
  }

  lemma CertificateParts(layout: Layout, src: Bytes, content: Bytes, front: Bytes, closing: Bytes)
    requires front == Body(src) + layout.open(content) && closing == layout.closing(|Body(src)|, |front|)
    ensures Certificate(layout, src, content) == front + closing + EOF + "\n"
  {
  }

  /** What attaching a manifest adds behind the first `at` bytes. */
  function Section(layout: Layout, at: nat, manifest: Bytes): Bytes {
    var head := layout.head(|manifest|);
    head + (manifest + (ENDSTREAM + layout.rest(at, at + |head| + |manifest|)))
  }

  lemma SectionParts(layout: Layout, at: nat, manifest: Bytes, head: Bytes, rest: Bytes)
    requires head == layout.head(|manifest|) && rest == layout.rest(at, at + |head + manifest|)
    ensures Section(layout, at, manifest) == head + manifest + ENDSTREAM + rest
  {
    Associate(manifest, ENDSTREAM, rest);
    Associate(head, manifest, ENDSTREAM + rest);
    Associate(head + manifest, ENDSTREAM, rest);
  }

  function Attach(layout: Layout, src: Bytes, manifest: Bytes): Bytes {
    Body(src) + Section(layout, |Body(src)|, manifest)
  }

  // ---------- reading a file back ----------

  /** The digest (SHA-256 in hexadecimal), the manifest's JSON for a final digest, TrimSpace, and the final digest that
      Unmarshal reads from JSON. */
  datatype Codec = Codec(
    digest: Bytes -> string, manifest: string -> Bytes, trim: Bytes -> Bytes, parse: Bytes -> Option<string>)
  {
    /** What the JSON library grants about the manifest of one digest: MarshalIndent's layout with the first key in
        front, that Unmarshal reads it back, and that it reads neither a part of it, nor the manifest with more behind
        it, nor text with a line that opens a PDF object. */
    ghost predicate Sound(h: string) {
      var m := manifest(h);
      && JsonLayout(m) && OBJECT <= m && trim(m) == m && parse(m) == Some(h)
      && (forall k | 0 <= k < |m| :: parse(m[..k]).None?)
      && (forall u: Bytes :: parse(m + ENDSTREAM + u).None?)
      && ReadsNoObject()
    }

    ghost predicate ReadsNoObject() {
      && (forall t: Bytes, u: Bytes :: parse(t + ATTACHED + u).None? && parse(trim(t + ATTACHED + u)).None?)
      && (forall u: Bytes :: parse(trim(ATTACHED[1..] + u)).None?)
    }
  }

  datatype Extracted = Extracted(hash: string, start: nat, end: nat)

  predicate InBounds(x: Bytes, range: Option<(nat, nat)>) {
    range.Some? ==> range.value.0 <= range.value.1 <= |x|
  }

  function ReadTrimmed(codec: Codec, x: Bytes, range: Option<(nat, nat)>): (e: Option<Extracted>)
    requires InBounds(x, range)
    ensures e.Some? ==> range == Some((e.value.start, e.value.end))
  {
    match range
    case None => None
    case Some((a, b)) =>
      match codec.parse(codec.trim(x[a..b]))
      case None => None
      case Some(h) => Some(Extracted(h, a, b))
  }

  function ReadBare(codec: Codec, x: Bytes, range: Option<(nat, nat)>): (e: Option<Extracted>)
    requires InBounds(x, range)
    ensures e.Some? ==> range == Some((e.value.start, e.value.end))
  {
    match range
    case None => None
    case Some((a, b)) =>
      match codec.parse(x[a..b])
      case None => None
      case Some(h) => Some(Extracted(h, a, b))
  }

  /** What strategy A reads. */
  ghost function Streamed(codec: Codec, x: Bytes): Option<Extracted> {
    ReadTrimmed(codec, x, Scan(x))
  }

  /** extractManifestJSON: what strategy A reads, else what the fallback reads. */
  ghost function Extract(codec: Codec, x: Bytes): Option<Extracted> {
    if Streamed(codec, x).Some? then Streamed(codec, x) else ReadBare(codec, x, ScanBare(x))
  }

  /** The digest check of verifyPDFBytes; None when no manifest is found. */
  ghost function Compare(codec: Codec, x: Bytes, e: Option<Extracted>): Option<bool>
    requires e.Some? ==> e.value.start <= |x|
  {
    match e
    case None => None
    case Some(found) => Some(codec.digest(HashedPrefix(x, found.start)) == found.hash)
  }

  ghost function Verify(codec: Codec, x: Bytes): Option<bool> {
    Compare(codec, x, Extract(codec, x))
  }

  method FindStream(x: Bytes) returns (range: Option<(nat, nat)>)
    ensures range == Scan(x)
  {
    var ef := Find(x, EMBEDDED, 0);
    if ef < 0 { return None; }
    var st := Find(x, STREAM, ef);
    if st < 0 { return None; }
    var end := Find(x, ENDSTREAM, st + |STREAM|);
    if end < 0 { return None; }
    return Some((st + |STREAM|, end));
  }

  method ExtractManifestJSON(codec: Codec, x: Bytes) returns (e: Option<Extracted>)
    ensures e == Extract(codec, x)
  {
    var range := FindStream(x);
    e := ReadTrimmed(codec, x, range);
    if e.None? {
      range := FindBare(x);
      e := ReadBare(codec, x, range);
    }
  }

  method VerifyPDFBytes(codec: Codec, x: Bytes) returns (hashMatch: Option<bool>)
    ensures hashMatch == Verify(codec, x)
  {
    var e := ExtractManifestJSON(codec, x);
    if e.None? { return None; }
    var at := Find(x, ATTACHED, 0);
    var preSeal := x;
    if at > 0 {
      preSeal := x[..at];
    } else if e.value.start > 0 {
      preSeal := x[..e.value.start];
    }
    return Some(codec.digest(preSeal) == e.value.hash);
  }

  // ---------- sealing ----------

  function SealedPdf(layout: Layout, codec: Codec, src: Bytes, content: Bytes): Bytes {
    var certificate := Certificate(layout, src, content);
    Attach(layout, certificate, codec.manifest(codec.digest(Body(certificate))))
  }

  // ---------- the certified bytes ----------

  /** Attaching to a certificate PDF drops exactly the certificate's own end-of-file marker. */
  lemma SealedForm(layout: Layout, codec: Codec, src: Bytes, content: Bytes)
    ensures var base := CertBase(layout, src, content);
      SealedPdf(layout, codec, src, content) == base + Section(layout, |base|, codec.manifest(codec.digest(base)))
  {
    BodyBeforeMark(CertBase(layout, src, content));
  }

  /** Both updates are appended to what they were given: the source's body opens the certified bytes, and these open the
      sealed file. */
  lemma SourceVerbatim(layout: Layout, codec: Codec, src: Bytes, content: Bytes)
    ensures Body(src) <= CertBase(layout, src, content) <= SealedPdf(layout, codec, src, content)
  {
    SealedForm(layout, codec, src, content);
  }

  /** The certificate page adds no marker of its own and lets none span a join: a marker in the certified bytes is one
      in the source's body or in the certificate's text. */
  lemma MarkersComeFromInputs(layout: Layout, src: Bytes, content: Bytes, p: Bytes)
    requires layout.Clean() && Marker(p)
    ensures Absent(CertBase(layout, src, content), p) <==> Absent(Body(src), p) && Absent(Line(content), p)
  {
    Patterns();
    var b := Body(src);
    var c := layout.open(content);
    var d := layout.closing(|b|, |b + c|);
    assert OpensContent(c, content, p);
    assert ClosesContent(d, p);
    AbsentJoin(b, c, p);
    AbsentJoin(b + c, d, p);
  }

  /** After any embedded-file dictionary in certified bytes comes the certificate's own "endstream" line, so the scanner
      gets past the certified bytes only when they hold no dictionary at all. */
  lemma CertificateEndsStream(layout: Layout, src: Bytes, content: Bytes)
    requires layout.Clean()
    ensures Lands(CertBase(layout, src, content)) <==> Absent(CertBase(layout, src, content), EMBEDDED)
  {
    var front := Body(src) + layout.open(content);
    var d := layout.closing(|Body(src)|, |front|);
    assert Marker(EMBEDDED) && ClosesContent(d, EMBEDDED);
    StreamAtJoin(front, d);
    if !Absent(front + d, EMBEDDED) {
      var j :| At(front + d, EMBEDDED, j);
      assert j <= |front| + 4;
    }
  }

  // ---------- seal, then verify ----------

  /** Neither input of the seal holds an embedded-file dictionary. */
  ghost predicate NoDictionary(src: Bytes, content: Bytes) {
    Absent(Body(src), EMBEDDED) && Absent(content, EMBEDDED)
  }

  /** Neither input of the seal holds a quoted envelope_id. */
  ghost predicate NoEnvelope(src: Bytes, content: Bytes) {
    Absent(Body(src), ENVELOPE) && Absent(content, ENVELOPE)
  }

  /** Neither input of the seal holds a line that opens object 10101. */
  ghost predicate NoAttachment(src: Bytes, content: Bytes) {
    Absent(Body(src), ATTACHED) && Absent(Line(content), ATTACHED)
  }

  lemma InputsDecide(layout: Layout, src: Bytes, content: Bytes)
    requires layout.Clean()
    ensures var base := CertBase(layout, src, content);
      && (Lands(base) <==> NoDictionary(src, content))
      && (Absent(base, EMBEDDED) <==> NoDictionary(src, content))
      && (Absent(base, ENVELOPE) <==> NoEnvelope(src, content))
      && (Absent(base, ATTACHED) <==> NoAttachment(src, content))
      && base != ""
  {
    CertificateEndsStream(layout, src, content);
    MarkersComeFromInputs(layout, src, content, EMBEDDED);
    MarkersComeFromInputs(layout, src, content, ENVELOPE);
    MarkersComeFromInputs(layout, src, content, ATTACHED);
    FeedCannotOpen(content, EMBEDDED);
    FeedCannotOpen(content, ENVELOPE);
    assert Marker(EMBEDDED) && OpensContent(layout.open(content), content, EMBEDDED);
  }

  lemma SectionForm(layout: Layout, at: nat, m: Bytes) returns (pre: Bytes, mid: Bytes, rest: Bytes)
    requires layout.Clean()
    ensures ATTACHED <= pre && Shape(pre, mid)
    ensures Section(layout, at, m) == pre + EMBEDDED + mid + STREAM + (m + (ENDSTREAM + rest))
    ensures |layout.head(|m|)| == |pre| + |EMBEDDED| + |mid| + |STREAM|
  {
    var head := layout.head(|m|);
    assert OpensManifest(head);
    pre, mid :| ATTACHED <= pre && Shape(pre, mid) && head == pre + EMBEDDED + mid + STREAM;
    rest := layout.rest(at, at + |head| + |m|);
  }

  /** m lies in x at a, and a scan came back with exactly that place if and only if `found`. */
  ghost predicate FoundAt(x: Bytes, a: nat, m: Bytes, range: Option<(nat, nat)>, found: bool) {
    && a + |m| <= |x| && x[a..a + |m|] == m
    && (range == Some((a, a + |m|)) <==> found)
  }

  /** What both scans of a file come back with when its manifest m lies at a, followed by its "endstream". */
  ghost predicate ScansAt(front: Bytes, x: Bytes, a: nat, m: Bytes) {
    && FoundAt(x, a, m, Scan(x), Lands(front))
    && At(x, ENDSTREAM, a + |m|)
    && BareAt(front, a, m, ScanBare(x))
  }

  lemma SealedScans(front: Bytes, pre: Bytes, mid: Bytes, m: Bytes, rest: Bytes)
    requires Shape(pre, mid) && JsonLayout(m) && OBJECT <= m
    ensures ScansAt(front, Sealed(front, pre, mid, m, rest), StartOf(front, pre, mid), m)
  {
    SealedParts(front, pre, mid, m, rest);
    ScanLands(front, pre, mid, m, rest);
    SealedBare(front, pre, mid, m, rest);
  }

  lemma SealedBare(front: Bytes, pre: Bytes, mid: Bytes, m: Bytes, rest: Bytes)
    requires Shape(pre, mid) && OBJECT <= m
    ensures BareAt(front, StartOf(front, pre, mid), m, ScanBare(Sealed(front, pre, mid, m, rest)))
  {
    var t := pre + EMBEDDED + mid + STREAM;
    var x := Sealed(front, pre, mid, m, rest);
    NoQuotes(pre, mid);
    assert x == front + (t + (m + (ENDSTREAM + rest)));
    assert |front| + |t| == StartOf(front, pre, mid);
    BareFound(front, t, m, ENDSTREAM + rest, x);
  }

  lemma NoQuotes(pre: Bytes, mid: Bytes)
    requires Shape(pre, mid)
    ensures var t := pre + EMBEDDED + mid + STREAM; Opens(t) && '"' !in t
  {
    assert '"' !in EMBEDDED && '"' !in STREAM;
  }

  lemma SectionOpens(layout: Layout, at: nat, m: Bytes, behind: Bytes)
    requires layout.Clean()
    ensures ATTACHED <= Section(layout, at, m) + behind && |ATTACHED| <= |layout.head(|m|)|
  {
    var pre, mid, rest := SectionForm(layout, at, m);
    assert ATTACHED <= pre <= Section(layout, at, m) + behind;
  }

  lemma Regroup(head: Bytes, m: Bytes, rest: Bytes, behind: Bytes)
    ensures head + (m + (ENDSTREAM + rest)) + behind == head + (m + (ENDSTREAM + (rest + behind)))
  {
    Associate(head, m + (ENDSTREAM + rest), behind);
    Associate(m, ENDSTREAM + rest, behind);
    Associate(ENDSTREAM, rest, behind);
  }

  lemma SectionScans(layout: Layout, front: Bytes, at: nat, m: Bytes, behind: Bytes)
    requires layout.Clean() && JsonLayout(m) && OBJECT <= m
    ensures ScansAt(front, front + (Section(layout, at, m) + behind), |front| + |layout.head(|m|)|, m)
  {
    var pre, mid, rest := SectionForm(layout, at, m);
    Regroup(pre + EMBEDDED + mid + STREAM, m, rest, behind);
    SealedScans(front, pre, mid, m, rest + behind);
  }

  // ---------- reading behind a front ----------

  /** A front that does not let strategy A land shows it what it shows it alone, whatever update follows. */
  lemma StreamedBehind(codec: Codec, front: Bytes, y: Bytes)
    requires codec.ReadsNoObject() && ATTACHED <= y && !Lands(front)
    ensures Streamed(codec, front + y) == Streamed(codec, front)
  {
    ScanBehind(front, y);
    TrimmedAlike(codec, front, y, Scan(front), Scan(front + y));
  }

  lemma TrimmedAlike(codec: Codec, front: Bytes, y: Bytes, r: Option<(nat, nat)>, s: Option<(nat, nat)>)
    requires codec.ReadsNoObject() && ATTACHED <= y && InBounds(front, r) && InBounds(front + y, s)
    requires r.Some? ==> s == r
    requires r.None? && s.Some? ==> s.value.0 <= |front| + 1 && |front| + |ATTACHED| <= s.value.1
    ensures ReadTrimmed(codec, front + y, s) == ReadTrimmed(codec, front, r)
  {
    var x := front + y;
    if r.Some? {
      assert x[r.value.0..r.value.1] == front[r.value.0..r.value.1];
    } else if s.Some? {
      var (a, b) := s.value;
      var u := y[|ATTACHED|..b - |front|];
      assert y == ATTACHED + y[|ATTACHED|..];
      if a <= |front| {
        assert x[a..b] == front[a..] + ATTACHED + u;
      } else {
        assert x[a..b] == ATTACHED[1..] + u;
      }
    }
  }

  /** The same of the fallback and a front with a quoted envelope_id. */
  lemma BareBehind(codec: Codec, front: Bytes, y: Bytes)
    requires codec.ReadsNoObject() && ATTACHED <= y && !Absent(front, ENVELOPE)
    ensures ReadBare(codec, front + y, ScanBare(front + y)) == ReadBare(codec, front, ScanBare(front))
  {
    ScanBareBehind(front, y);
    BareAlike(codec, front, y, ScanBare(front), ScanBare(front + y));
  }

  lemma BareAlike(codec: Codec, front: Bytes, y: Bytes, r: Option<(nat, nat)>, s: Option<(nat, nat)>)
    requires codec.ReadsNoObject() && ATTACHED <= y && InBounds(front, r) && InBounds(front + y, s)
    requires r.Some? ==> s == r
    requires r.None? && s.Some? ==> s.value.0 < |front| && |front| + |ATTACHED| <= s.value.1
    ensures ReadBare(codec, front + y, s) == ReadBare(codec, front, r)
  {
    var x := front + y;
    if r.Some? {
      assert x[r.value.0..r.value.1] == front[r.value.0..r.value.1];
    } else if s.Some? {
      var (a, b) := s.value;
      assert y == ATTACHED + y[|ATTACHED|..];
      assert x[a..b] == front[a..] + ATTACHED + y[|ATTACHED|..b - |front|];
    }
  }

  lemma TrimmedRead(codec: Codec, x: Bytes, a: nat, m: Bytes, h: string, range: Option<(nat, nat)>, found: bool)
    requires codec.Sound(h) && m == codec.manifest(h) && FoundAt(x, a, m, range, found) && InBounds(x, range)
    ensures found <==> ReadTrimmed(codec, x, range) == Some(Extracted(h, a, a + |m|))
  {
  }

  lemma BareRead(codec: Codec, front: Bytes, x: Bytes, a: nat, m: Bytes, h: string, range: Option<(nat, nat)>)
    requires codec.Sound(h) && m == codec.manifest(h) && a + |m| <= |x| && x[a..a + |m|] == m && |front| <= a
    requires At(x, ENDSTREAM, a + |m|) && BareAt(front, a, m, range) && InBounds(x, range) && Absent(front, ENVELOPE)
    requires range.Some? ==> range.value.0 < range.value.1 && x[range.value.1 - 1] == '}'
    ensures ReadBare(codec, x, range) == if BracesClose(m) then Some(Extracted(h, a, a + |m|)) else None
  {
    if !BracesClose(m) && range.Some? {
      var b := range.value.1;
      if b < a + |m| {
        assert x[a..b] == m[..b - a];
      } else {
        PastManifest(x, a, m, b);
        var u := x[a + |m| + |ENDSTREAM|..b];
        assert x[a..b] == m + ENDSTREAM + u;
      }
    }
  }

  lemma PastManifest(x: Bytes, a: nat, m: Bytes, b: nat)
    requires a + |m| < b <= |x| && x[a..a + |m|] == m && At(x, ENDSTREAM, a + |m|) && x[b - 1] == '}'
    ensures a + |m| + |ENDSTREAM| <= b
    ensures x[a..b] == m + ENDSTREAM + x[a + |m| + |ENDSTREAM|..b]
  {
    var from := a + |m|;
    if b < from + |ENDSTREAM| {
      AtChar(x, ENDSTREAM, from, b - 1 - from);
      NoBraceInEnd(b - 1 - from);
    }
    assert x[from..from + |ENDSTREAM|] == ENDSTREAM;
  }

  lemma NoBraceInEnd(k: nat)
    requires k < |ENDSTREAM|
    ensures ENDSTREAM[k] != '}'
  {
  }

  /** What can be told from a front and the manifest m behind it: strategy A lands; or else it reads nothing in the
      front, no quoted envelope_id is there, and counting the manifest's braces ends where the manifest does. */
  ghost predicate Recovers(codec: Codec, front: Bytes, m: Bytes) {
    Lands(front) || (Streamed(codec, front).None? && Absent(front, ENVELOPE) && BracesClose(m))
  }

  lemma NoBareAlone(codec: Codec, front: Bytes)
    requires Absent(front, ENVELOPE)
    ensures Extract(codec, front) == Streamed(codec, front)
  {
  }

  /** m lies in x at a. */
  predicate HoldsAt(x: Bytes, a: nat, m: Bytes) {
    a + |m| <= |x| && x[a..a + |m|] == m
  }

  /** m lies in x at a, and that is what extraction finds when `recovered`, else what it finds in the front alone. */
  ghost predicate Extracts(codec: Codec, x: Bytes, a: nat, m: Bytes, h: string, recovered: bool, front: Bytes) {
    && HoldsAt(x, a, m)
    && Extract(codec, x) == if recovered then Some(Extracted(h, a, a + |m|)) else Extract(codec, front)
  }

  /** Behind any front, extraction finds the manifest exactly when it recovers it, and otherwise just what it finds in
      the front alone. */
  lemma ExtractBehind(codec: Codec, front: Bytes, y: Bytes, a: nat, m: Bytes, h: string)
    requires codec.Sound(h) && m == codec.manifest(h) && ATTACHED <= y
    requires |front| <= a && ScansAt(front, front + y, a, m)
    ensures Extracts(codec, front + y, a, m, h, Recovers(codec, front, m), front)
  {
    var x := front + y;
    if Lands(front) {
      TrimmedRead(codec, x, a, m, h, Scan(x), true);
    } else {
      StreamedBehind(codec, front, y);
      if Absent(front, ENVELOPE) {
        BareRead(codec, front, x, a, m, h, ScanBare(x));
        NoBareAlone(codec, front);
        BareExtract(codec, x, Streamed(codec, x), ReadBare(codec, x, ScanBare(x)));
      } else {
        BareBehind(codec, front, y);
        BareExtract(codec, x, Streamed(codec, x), ReadBare(codec, x, ScanBare(x)));
        BareExtract(codec, front, Streamed(codec, x), ReadBare(codec, x, ScanBare(x)));
      }
    }
  }

  lemma BareExtract(codec: Codec, x: Bytes, streamed: Option<Extracted>, bare: Option<Extracted>)
    requires streamed == Streamed(codec, x) && bare == ReadBare(codec, x, ScanBare(x))
    ensures Extract(codec, x) == if streamed.Some? then streamed else bare
  {
  }

  // ---------- verifying behind a front ----------

  /** The digest tells these two byte strings apart. */
  predicate NoCollision(codec: Codec, base: Bytes, other: Bytes) {
    codec.digest(other) == codec.digest(base) ==> other == base
  }

  lemma StartsInside(codec: Codec, front: Bytes)
    ensures Extract(codec, front).Some? ==>
      var start := Extract(codec, front).value.start; start <= |front| && front != "" && (start > 0 || front[0] == '{')
  {
  }

  /** The verdict on a front that does not let the manifest behind it be found: it is about what is found in the front,
      and about the front up to its first attachment marker. */
  ghost function Verdict(codec: Codec, front: Bytes): Option<bool> {
    StartsInside(codec, front);
    match Extract(codec, front)
    case None => None
    case Some(e) => Some(codec.digest(Rehashed(front, e.start)) == e.hash)
  }

  lemma VerifyBehind(codec: Codec, front: Bytes, y: Bytes, a: nat, m: Bytes, h: string)
    requires codec.Sound(h) && m == codec.manifest(h) && ATTACHED <= y
    requires |front| <= a <= |front + y| && ScansAt(front, front + y, a, m)
    ensures Verify(codec, front + y) ==
      if Recovers(codec, front, m) then Some(codec.digest(HashedPrefix(front + y, a)) == h) else Verdict(codec, front)
  {
    ExtractBehind(codec, front, y, a, m, h);
    StartsInside(codec, front);
    if !Recovers(codec, front, m) && Extract(codec, front).Some? {
      RehashedBehind(front, y, Extract(codec, front).value.start);
    }
  }

  // ---------- the file behind a front ----------

  /** The section that sealing puts behind base, and `behind` it whatever was appended later. */
  function SectionOf(layout: Layout, codec: Codec, base: Bytes, behind: Bytes): Bytes {
    Section(layout, |base|, codec.manifest(codec.digest(base))) + behind
  }

  /** A file whose front was replaced: alt where sealing had put base. With alt == base and nothing behind it is the
      sealed file. */
  function Altered(layout: Layout, codec: Codec, base: Bytes, alt: Bytes, behind: Bytes): Bytes {
    alt + SectionOf(layout, codec, base, behind)
  }

  /** Where the manifest begins in it. */
  function ManifestStart(layout: Layout, codec: Codec, base: Bytes, alt: Bytes): nat {
    |alt| + |layout.head(|codec.manifest(codec.digest(base))|)|
  }

  lemma AlteredScans(layout: Layout, codec: Codec, base: Bytes, alt: Bytes, behind: Bytes)
    requires layout.Clean() && codec.Sound(codec.digest(base))
    ensures var a := ManifestStart(layout, codec, base, alt);
      && |alt| + |ATTACHED| <= a <= |Altered(layout, codec, base, alt, behind)|
      && ATTACHED <= SectionOf(layout, codec, base, behind)
      && ScansAt(alt, Altered(layout, codec, base, alt, behind), a, codec.manifest(codec.digest(base)))
  {
    SectionScans(layout, alt, |base|, codec.manifest(codec.digest(base)), behind);
    SectionOpens(layout, |base|, codec.manifest(codec.digest(base)), behind);
  }

  lemma AlteredExtracts(layout: Layout, codec: Codec, base: Bytes, alt: Bytes, behind: Bytes)
    requires layout.Clean() && codec.Sound(codec.digest(base))
    ensures var h := codec.digest(base); var m := codec.manifest(h);
      Extracts(codec, Altered(layout, codec, base, alt, behind), ManifestStart(layout, codec, base, alt), m, h,
               Recovers(codec, alt, m), alt)
  {
    AlteredScans(layout, codec, base, alt, behind);
    ExtractBehind(codec, alt, SectionOf(layout, codec, base, behind), ManifestStart(layout, codec, base, alt),
                  codec.manifest(codec.digest(base)), codec.digest(base));
  }

  lemma AlteredVerifies(layout: Layout, codec: Codec, base: Bytes, alt: Bytes, behind: Bytes)
    requires layout.Clean() && codec.Sound(codec.digest(base))
    ensures var x := Altered(layout, codec, base, alt, behind); var a := ManifestStart(layout, codec, base, alt);
      && a <= |x|
      && Verify(codec, x) ==
         if Recovers(codec, alt, codec.manifest(codec.digest(base)))
         then Some(codec.digest(HashedPrefix(x, a)) == codec.digest(base)) else Verdict(codec, alt)
  {
    AlteredScans(layout, codec, base, alt, behind);
    VerifyBehind(codec, alt, SectionOf(layout, codec, base, behind), ManifestStart(layout, codec, base, alt),
                 codec.manifest(codec.digest(base)), codec.digest(base));
  }

  // ---------- freshly sealed files ----------

  lemma SealedIsAltered(layout: Layout, codec: Codec, src: Bytes, content: Bytes, behind: Bytes)
    ensures var base := CertBase(layout, src, content);
      SealedPdf(layout, codec, src, content) + behind == Altered(layout, codec, base, base, behind)
  {
    var base := CertBase(layout, src, content);
    SealedForm(layout, codec, src, content);
    Associate(base, Section(layout, |base|, codec.manifest(codec.digest(base))), behind);
  }

  /** What a caller can tell from the inputs of a seal: the manifest will be found. */
  ghost predicate Recoverable(layout: Layout, codec: Codec, src: Bytes, content: Bytes) {
    var base := CertBase(layout, src, content);
    NoDictionary(src, content) ||
    (Streamed(codec, base).None? && Absent(base, ENVELOPE) && BracesClose(codec.manifest(codec.digest(base))))
  }

  /** Extraction finds exactly the embedded manifest if and only if neither input holds an embedded-file dictionary,
      or what follows the dictionary in the certified bytes is no manifest and the fallback can find the real one.
      Otherwise it finds just what it finds in the certified bytes alone. */
  lemma ManifestRecovered(layout: Layout, codec: Codec, src: Bytes, content: Bytes, behind: Bytes)
    requires layout.Clean() && codec.Sound(codec.digest(CertBase(layout, src, content)))
    ensures var base := CertBase(layout, src, content); var h := codec.digest(base);
      Extracts(codec, SealedPdf(layout, codec, src, content) + behind, ManifestStart(layout, codec, base, base),
               codec.manifest(h), h, Recoverable(layout, codec, src, content), base)
  {
    SealedIsAltered(layout, codec, src, content, behind);
    RecoverableRecovers(layout, codec, src, content);
    AlteredExtracts(layout, codec, CertBase(layout, src, content), CertBase(layout, src, content), behind);
  }

  lemma RecoverableRecovers(layout: Layout, codec: Codec, src: Bytes, content: Bytes)
    requires layout.Clean()
    ensures var base := CertBase(layout, src, content);
      Recoverable(layout, codec, src, content) == Recovers(codec, base, codec.manifest(codec.digest(base)))
  {
    InputsDecide(layout, src, content);
  }

  /** Verification hashes exactly the bytes that sealing hashed if and only if neither input holds an attachment
      marker. */
  lemma RehashRecoversBase(layout: Layout, codec: Codec, src: Bytes, content: Bytes, behind: Bytes)
    requires layout.Clean() && codec.Sound(codec.digest(CertBase(layout, src, content)))
    ensures var base := CertBase(layout, src, content); var x := SealedPdf(layout, codec, src, content) + behind;
      var a := ManifestStart(layout, codec, base, base);
      a <= |x| && (HashedPrefix(x, a) == base <==> NoAttachment(src, content))
  {
    var base := CertBase(layout, src, content);
    SealedIsAltered(layout, codec, src, content, behind);
    AlteredScans(layout, codec, base, base, behind);
    RehashesBase(base, SectionOf(layout, codec, base, behind), ManifestStart(layout, codec, base, base));
    InputsDecide(layout, src, content);
  }

  /** The digest check of a sealed file, for all inputs and whatever was appended behind it. When the manifest is
      recoverable the check passes exactly when no input holds an attachment marker, as long as the digest tells the
      bytes hashed again from the certified ones. When it is not, the verdict is that on the certified bytes alone. */
  lemma SealThenVerify(layout: Layout, codec: Codec, src: Bytes, content: Bytes, behind: Bytes)
    requires layout.Clean() && codec.Sound(codec.digest(CertBase(layout, src, content)))
    ensures var base := CertBase(layout, src, content); var x := SealedPdf(layout, codec, src, content) + behind;
      var recoverable := Recoverable(layout, codec, src, content); var a := ManifestStart(layout, codec, base, base);
      && a <= |x|
      && (recoverable && NoAttachment(src, content) ==> Verify(codec, x) == Some(true))
      && (recoverable && NoCollision(codec, base, HashedPrefix(x, a)) ==>
           Verify(codec, x) == Some(NoAttachment(src, content)))
      && (!recoverable ==> Verify(codec, x) == Verdict(codec, base))
  {
    var base := CertBase(layout, src, content);
    SealedIsAltered(layout, codec, src, content, behind);
    RecoverableRecovers(layout, codec, src, content);
    AlteredVerifies(layout, codec, base, base, behind);
    RehashRecoversBase(layout, codec, src, content, behind);
  }

  // ---------- altered files ----------

  /** alt is base, or base and an attachment marker with anything behind it. */
  ghost predicate SameUpToMarker(base: Bytes, alt: Bytes) {
    alt == base || base + ATTACHED <= alt
  }

  /** Verification of a file whose front was replaced, for certified bytes without an attachment marker. When the
      manifest is still found, it passes exactly when the front is untouched, or is the certified bytes and a marker
      with anything behind it. When it is not, the verdict is that on the front alone. */
  lemma AlteredFrontVerifies(layout: Layout, codec: Codec, base: Bytes, alt: Bytes, behind: Bytes)
    requires layout.Clean() && codec.Sound(codec.digest(base)) && base != "" && Absent(base, ATTACHED)
    ensures var x := Altered(layout, codec, base, alt, behind); var a := ManifestStart(layout, codec, base, alt);
      var found := Recovers(codec, alt, codec.manifest(codec.digest(base)));
      && a <= |x|
      && (found && SameUpToMarker(base, alt) ==> Verify(codec, x) == Some(true))
      && (found && NoCollision(codec, base, HashedPrefix(x, a)) ==>
           Verify(codec, x) == Some(SameUpToMarker(base, alt)))
      && (!found ==> Verify(codec, x) == Verdict(codec, alt))
  {
    AlteredScans(layout, codec, base, alt, behind);
    AlteredVerifies(layout, codec, base, alt, behind);
    RehashesFront(base, alt, SectionOf(layout, codec, base, behind), ManifestStart(layout, codec, base, alt));
  }

  /** Bytes put between the certified bytes and the manifest go unnoticed when they begin with an attachment marker and
      do not keep the manifest from being found: only what comes before the first marker is protected. */
  lemma InsertionUnnoticed(layout: Layout, codec: Codec, base: Bytes, inserted: Bytes)
    requires layout.Clean() && codec.Sound(codec.digest(base)) && base != "" && Absent(base, ATTACHED)
    requires Recovers(codec, base + ATTACHED + inserted, codec.manifest(codec.digest(base)))
    ensures Verify(codec, Altered(layout, codec, base, base + ATTACHED + inserted, "")) == Some(true)
  {
    AlteredFrontVerifies(layout, codec, base, base + ATTACHED + inserted, "");
  }

  /** Nothing appended behind the manifest is ever noticed: it changes no verdict on any file with this section. */
  lemma AppendedUnnoticed(layout: Layout, codec: Codec, base: Bytes, alt: Bytes, behind: Bytes)
    requires layout.Clean() && codec.Sound(codec.digest(base))
    ensures Verify(codec, Altered(layout, codec, base, alt, "") + behind) ==
            Verify(codec, Altered(layout, codec, base, alt, ""))
  {
    var x := Altered(layout, codec, base, alt, "");
    AlteredVerifies(layout, codec, base, alt, "");
    AlteredVerifies(layout, codec, base, alt, behind);
    AlteredAppends(layout, codec, base, alt, behind);
    AlteredScans(layout, codec, base, alt, "");
    MarkedBehind(alt, SectionOf(layout, codec, base, ""));
    SamePrefix(x, behind, ManifestStart(layout, codec, base, alt));
  }

  lemma AlteredAppends(layout: Layout, codec: Codec, base: Bytes, alt: Bytes, behind: Bytes)
    ensures Altered(layout, codec, base, alt, "") + behind == Altered(layout, codec, base, alt, behind)
  {
    var section := Section(layout, |base|, codec.manifest(codec.digest(base)));
    assert section + "" == section;
    Associate(alt, section, behind);
  }

  lemma MarkedBehind(front: Bytes, y: Bytes)
    requires ATTACHED <= y
    ensures !Absent(front + y, ATTACHED)
  {
    assert (front + y)[|front|..|front| + |ATTACHED|] == ATTACHED;
    assert At(front + y, ATTACHED, |front|);
  }
}

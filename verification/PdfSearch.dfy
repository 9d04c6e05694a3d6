/** Searching byte strings as backend/handlers/verify.go does, and what a search for one of the sealed file's patterns
    can find. A byte string is a string with one char per byte. */
module PdfSearch {
  import opened Common

  type Bytes = string

  // ---------- searching ----------

  predicate At(s: Bytes, p: Bytes, i: int) {
    0 <= i <= |s| - |p| && s[i..i + |p|] == p
  }

  ghost predicate Absent(s: Bytes, p: Bytes) {
    forall i :: !At(s, p, i)
  }

  lemma {:induction false} LeastAt(s: Bytes, p: Bytes, from: nat, i: nat)
    requires from <= i && At(s, p, i)
    ensures exists k | from <= k :: At(s, p, k) && forall j | from <= j < k :: !At(s, p, j)
    decreases i
  {
    if j: nat :| from <= j < i && At(s, p, j) {
      LeastAt(s, p, from, j);
    }
  }

  /** bytes.Index in s[from..], as a position in s; -1 when there is none. */
  ghost function Index(s: Bytes, p: Bytes, from: nat): (r: int)
    ensures r == -1 ==> forall i | from <= i :: !At(s, p, i)
    ensures r != -1 ==> from <= r && At(s, p, r) && forall i | from <= i < r :: !At(s, p, i)
  {
    if exists i: nat | from <= i :: At(s, p, i) then
      var i: nat :| from <= i && At(s, p, i);
      LeastAt(s, p, from, i);
      var k :| from <= k && At(s, p, k) && forall j | from <= j < k :: !At(s, p, j);
      k
    else -1
  }

  method Find(s: Bytes, p: Bytes, from: nat) returns (r: int)
    ensures r == Index(s, p, from)
  {
    r := from;
    while r <= |s| - |p|
      invariant from <= r && forall i | from <= i < r :: !At(s, p, i)
    {
      if At(s, p, r) { return r; }
      r := r + 1;
    }
    return -1;
  }

  /** bytes.LastIndex among the positions before n. */
  function LastIndex(s: Bytes, p: Bytes, n: nat): (r: int)
    ensures r == -1 ==> forall i | i < n :: !At(s, p, i)
    ensures r != -1 ==> r < n && At(s, p, r) && forall i | r < i < n :: !At(s, p, i)
  {
    if n == 0 then -1 else if At(s, p, n - 1) then n - 1 else LastIndex(s, p, n - 1)
  }

  lemma AtChar(s: Bytes, p: Bytes, i: int, k: nat)
    requires At(s, p, i) && k < |p|
    ensures s[i + k] == p[k]
  {
    assert s[i..i + |p|][k] == p[k];
  }

  lemma AtStart(s: Bytes, p: Bytes)
    requires s != "" && p != ""
    ensures At(s, p, 0) ==> s[0] == p[0]
  {
    if At(s, p, 0) {
      AtChar(s, p, 0, 0);
    }
  }

  ghost predicate NewlineOnlyFirst(p: Bytes) {
    p != "" && forall k | 0 < k < |p| :: p[k] != '\n'
  }

  /** No occurrence of such a pattern spans a line feed that it does not begin with. */
  lemma AtJoin(x: Bytes, y: Bytes, p: Bytes, i: int)
    requires NewlineOnlyFirst(p) && y != "" && y[0] == '\n'
    ensures At(x + y, p, i) <==> if i < |x| then At(x, p, i) else At(y, p, i - |x|)
  {
    var s := x + y;
    if 0 <= i < |x| {
      if i + |p| <= |x| {
        assert s[i..i + |p|] == x[i..i + |p|];
      } else if At(s, p, i) {
        AtChar(s, p, i, |x| - i);
      }
    } else if |x| <= i && i + |p| <= |s| {
      assert s[i..i + |p|] == y[i - |x|..i - |x| + |p|];
    }
  }

  lemma NoStraddle(x: Bytes, y: Bytes, p: Bytes)
    requires NewlineOnlyFirst(p) && y != "" && y[0] == '\n'
    ensures forall i | i < |x| :: At(x + y, p, i) <==> At(x, p, i)
    ensures forall i | i >= |x| :: At(x + y, p, i) <==> At(y, p, i - |x|)
  {
    forall i ensures At(x + y, p, i) <==> if i < |x| then At(x, p, i) else At(y, p, i - |x|) {
      AtJoin(x, y, p, i);
    }
  }

  lemma AbsentJoin(x: Bytes, y: Bytes, p: Bytes)
    requires NewlineOnlyFirst(p) && y != "" && y[0] == '\n'
    ensures Absent(x + y, p) <==> Absent(x, p) && Absent(y, p)
  {
    NoStraddle(x, y, p);
    if !Absent(x, p) {
      var i :| At(x, p, i);
      assert At(x + y, p, i);
    }
    if !Absent(y, p) {
      var i :| At(y, p, i);
      assert At(y, p, i + |x| - |x|);
      assert At(x + y, p, i + |x|);
    }
  }

  // ---------- patterns ----------

  const EOF: Bytes := "%%EOF"
  const EMBEDDED: Bytes := "/Type /EmbeddedFile"
  const STREAM: Bytes := "stream\n"
  const ENDSTREAM: Bytes := "\nendstream"
  const ATTACHED: Bytes := "\n10101 0 obj"
  const ENVELOPE: Bytes := "\"envelope_id\""

  /** What an incremental update keeps: everything before the last end-of-file marker, or all when there is none. */
  function Body(src: Bytes): Bytes {
    var i := LastIndex(src, EOF, |src|);
    if i >= 0 then src[..i] else src
  }

  function Line(s: Bytes): Bytes {
    "\n" + s
  }

  // ---------- the scanner ----------

  /** Strategy A of extractManifestJSON: the byte range taken for the manifest. */
  ghost function Scan(x: Bytes): (r: Option<(nat, nat)>)
    ensures r.Some? ==> 0 < r.value.0 <= r.value.1 <= |x|
  {
    var ef := Index(x, EMBEDDED, 0);
    if ef < 0 then None
    else
      var st := Index(x, STREAM, ef);
      if st < 0 then None
      else
        var end := Index(x, ENDSTREAM, st + |STREAM|);
        if end < 0 then None else Some((st + |STREAM|, end))
  }

  /** The bytes verifyPDFBytes hashes again. */
  ghost function HashedPrefix(x: Bytes, manifestStart: nat): Bytes
    requires manifestStart <= |x|
  {
    var at := Index(x, ATTACHED, 0);
    if at > 0 then x[..at] else if manifestStart > 0 then x[..manifestStart] else x
  }

  lemma Patterns()
    ensures NewlineOnlyFirst(EMBEDDED) && NewlineOnlyFirst(ATTACHED) && NewlineOnlyFirst(ENDSTREAM)
    ensures NewlineOnlyFirst(ENVELOPE)
  {
  }

  lemma LacksChar(s: Bytes, p: Bytes, k: nat)
    requires k < |p| && p[k] !in s
    ensures Absent(s, p)
  {
    forall i ensures !At(s, p, i) {
      if At(s, p, i) {
        AtChar(s, p, i, k);
      }
    }
  }

  ghost predicate Marker(p: Bytes) {
    p == EMBEDDED || p == ATTACHED || p == ENVELOPE
  }

  predicate Opens(s: Bytes) {
    s != "" && s[0] == '\n'
  }

  lemma JoinFour(b: Bytes, c: Bytes, g: Bytes, x: Bytes, p: Bytes)
    requires NewlineOnlyFirst(p) && Opens(c) && Opens(g) && Opens(x)
    ensures Absent(b + c + g + x, p) <==> Absent(b, p) && Absent(c, p) && Absent(g, p) && Absent(x, p)
  {
    AbsentJoin(b, c, p);
    AbsentJoin(b + c, g, p);
    AbsentJoin(b + c + g, x, p);
  }

  lemma BodyBeforeMark(base: Bytes)
    ensures Body(base + EOF + "\n") == base
  {
    var s := base + EOF + "\n";
    assert s[|base|..|base| + 5] == EOF;
    assert At(s, EOF, |base|);
    forall i | i > |base| ensures !At(s, EOF, i) {
      if At(s, EOF, i) {
        AtChar(s, EOF, i, 1);
      }
    }
  }

  /** An update keeps the source up to its last end-of-file marker, or all of it when there is none. */
  lemma BodyIsUpToLastMark(src: Bytes)
    ensures Body(src) <= src && (Absent(src, EOF) ==> Body(src) == src)
    ensures !Absent(src, EOF) ==> At(src, EOF, |Body(src)|) && forall i | i > |Body(src)| :: !At(src, EOF, i)
  {
  }

  lemma FeedCannotOpen(content: Bytes, p: Bytes)
    requires p != "" && p[0] != '\n'
    ensures Absent(Line(content), p) <==> Absent(content, p)
  {
    forall i: nat ensures At(content, p, i) <==> At(Line(content), p, i + 1) {
      if i + |p| <= |content| {
        assert Line(content)[i + 1..i + 1 + |p|] == content[i..i + |p|];
      }
    }
    AtStart(Line(content), p);
    if !Absent(Line(content), p) {
      var i :| At(Line(content), p, i);
      var k: nat := i - 1;
      assert At(content, p, k) <==> At(Line(content), p, k + 1);
    }
  }

  // ---------- where the scanner lands ----------

  /** The pieces between the attachment marker and the manifest, seen through the characters the search depends on. */
  ghost predicate Shape(pre: Bytes, mid: Bytes) {
    && Opens(pre) && '/' !in pre && 's' !in pre && '"' !in pre && '"' !in mid
    && |mid| >= 2 && mid[|mid| - 2] == '>' && mid[|mid| - 1] == '\n'
    && forall k | 0 <= k < |mid| - 1 :: mid[k] != '\n'
  }

  lemma DictionaryFirst(pre: Bytes, after: Bytes)
    requires '/' !in pre
    ensures At(pre + EMBEDDED + after, EMBEDDED, |pre|)
    ensures forall j | j < |pre| :: !At(pre + EMBEDDED + after, EMBEDDED, j)
  {
    var y := pre + EMBEDDED + after;
    assert y[|pre|..|pre| + |EMBEDDED|] == EMBEDDED;
    forall j | j < |pre| ensures !At(y, EMBEDDED, j) {
      if At(y, EMBEDDED, j) {
        AtChar(y, EMBEDDED, j, 0);
      }
    }
  }

  lemma StreamFirst(pre: Bytes, mid: Bytes, after: Bytes)
    requires Shape(pre, mid)
    ensures var y := pre + EMBEDDED + mid + STREAM + after; var at := |pre| + |EMBEDDED| + |mid|;
      At(y, STREAM, at) && forall k | k < at :: !At(y, STREAM, k)
  {
    var y := pre + EMBEDDED + mid + STREAM + after;
    var at := |pre| + |EMBEDDED| + |mid|;
    assert y[at..at + |STREAM|] == STREAM;
    forall k | k < at ensures !At(y, STREAM, k) {
      if At(y, STREAM, k) {
        AtChar(y, STREAM, k, 0);
        AtChar(y, STREAM, k, 5);
        AtChar(y, STREAM, k, 6);
        NewlineOf(pre, mid, after, k + 6);
      }
    }
  }

  /** Past pre, the only line feed before the end of "stream" closes mid. */
  lemma NewlineOf(pre: Bytes, mid: Bytes, after: Bytes, i: nat)
    requires Shape(pre, mid)
    requires var at := |pre| + |EMBEDDED| + |mid|; 6 <= i < at + 6
    requires var y := pre + EMBEDDED + mid + STREAM + after; y[i] == '\n' && y[i - 6] == 's'
    ensures i == |pre| + |EMBEDDED| + |mid| - 1
  {
    var y := pre + EMBEDDED + mid + STREAM + after;
  }

  /** json.MarshalIndent breaks lines only before indentation or a closing brace, and escapes line feeds in strings. */
  ghost predicate JsonLayout(m: Bytes) {
    forall i | 0 <= i < |m| - 1 && m[i] == '\n' :: m[i + 1] == ' ' || m[i + 1] == '}'
  }

  lemma ManifestEnds(x: Bytes, a: nat, b: nat)
    requires a <= b && At(x, ENDSTREAM, b) && JsonLayout(x[a..b])
    ensures Index(x, ENDSTREAM, a) == b
  {
    var m := x[a..b];
    AtChar(x, ENDSTREAM, b, 0);
    forall k | a <= k < b - 1 && x[k] == '\n' ensures x[k + 1] == ' ' || x[k + 1] == '}' {
      assert m[k - a] == '\n' && m[k - a + 1] == x[k + 1];
    }
    forall k | a <= k < b ensures !At(x, ENDSTREAM, k) {
      if At(x, ENDSTREAM, k) {
        AtChar(x, ENDSTREAM, k, 0);
        AtChar(x, ENDSTREAM, k, 1);
      }
    }
  }

  /** A "stream" line in base, or ending it and completed by the line feed that follows. */
  lemma StreamInBase(base: Bytes, y: Bytes)
    requires Opens(y)
    ensures forall k | k < |base| :: At(base + y, STREAM, k) <==> At(base + "\n", STREAM, k)
  {
    var x := base + y;
    var z := base + "\n";
    forall k ensures k < |base| ==> (At(x, STREAM, k) <==> At(z, STREAM, k)) {
      if 0 <= k < |base| {
        if k + |STREAM| <= |z| {
          assert x[k..k + |STREAM|] == z[k..k + |STREAM|];
        } else if At(x, STREAM, k) {
          AtChar(x, STREAM, k, |base| - k);
        }
      }
    }
  }

  /** No line of base both follows an embedded-file dictionary in it and ends in "stream". */
  ghost predicate Lands(base: Bytes) {
    forall j, k | At(base, EMBEDDED, j) && At(base + "\n", STREAM, k) :: k < j
  }

  /** The sealed file around its variable parts. */
  function Sealed(base: Bytes, pre: Bytes, mid: Bytes, m: Bytes, rest: Bytes): Bytes {
    base + (pre + EMBEDDED + mid + STREAM + (m + (ENDSTREAM + rest)))
  }

  function StartOf(base: Bytes, pre: Bytes, mid: Bytes): nat {
    |base| + |pre| + |EMBEDDED| + |mid| + |STREAM|
  }

  lemma SealedParts(base: Bytes, pre: Bytes, mid: Bytes, m: Bytes, rest: Bytes)
    ensures var x := Sealed(base, pre, mid, m, rest); var a := StartOf(base, pre, mid);
      && a + |m| <= |x| && x[a..a + |m|] == m && At(x, ENDSTREAM, a + |m|)
  {
    var x := Sealed(base, pre, mid, m, rest);
    var before := base + (pre + EMBEDDED + mid + STREAM);
    assert x == before + (m + (ENDSTREAM + rest));
    assert x == (before + m) + (ENDSTREAM + rest);
    assert |before| == StartOf(base, pre, mid);
    assert x[|before|..|before| + |m|] == m;
    assert x[|before| + |m|..|before| + |m| + |ENDSTREAM|] == ENDSTREAM;
  }

  /** Where the search for a dictionary ends: in base if base has one, else at the printer's own. */
  lemma DictionaryFound(base: Bytes, pre: Bytes, mid: Bytes, m: Bytes, rest: Bytes)
    requires Shape(pre, mid)
    ensures var ef := Index(Sealed(base, pre, mid, m, rest), EMBEDDED, 0);
      && (Absent(base, EMBEDDED) ==> ef == |base| + |pre|)
      && (!Absent(base, EMBEDDED) ==>
           0 <= ef < |base| && At(base, EMBEDDED, ef) && forall j | j < ef :: !At(base, EMBEDDED, j))
  {
    var after := mid + STREAM + (m + (ENDSTREAM + rest));
    var y := pre + EMBEDDED + after;
    var x := base + y;
    assert x == Sealed(base, pre, mid, m, rest) by {
      assert y == pre + EMBEDDED + mid + STREAM + (m + (ENDSTREAM + rest));
    }
    Patterns();
    NoStraddle(base, y, EMBEDDED);
    DictionaryFirst(pre, after);
    assert At(x, EMBEDDED, |base| + |pre|) by {
      assert At(y, EMBEDDED, |base| + |pre| - |base|);
    }
    forall j | |base| <= j < |base| + |pre| ensures !At(x, EMBEDDED, j) {
      assert !At(y, EMBEDDED, j - |base|);
    }
    if !Absent(base, EMBEDDED) {
      var j :| At(base, EMBEDDED, j);
      assert At(x, EMBEDDED, j);
    }
  }

  /** From any start up to the printer's dictionary, the next "stream" line is one of base's, or the printer's own. */
  lemma StreamFound(base: Bytes, pre: Bytes, mid: Bytes, m: Bytes, rest: Bytes, ef: nat)
    requires Shape(pre, mid) && ef <= |base| + |pre|
    ensures var st := Index(Sealed(base, pre, mid, m, rest), STREAM, ef);
      && ((forall k | ef <= k < |base| :: !At(base + "\n", STREAM, k)) ==> st == StartOf(base, pre, mid) - |STREAM|)
      && ((exists k | ef <= k < |base| :: At(base + "\n", STREAM, k)) ==> 0 <= st < |base|)
  {
    var after := m + (ENDSTREAM + rest);
    var y := pre + EMBEDDED + mid + STREAM + after;
    var x := base + y;
    var at := |pre| + |EMBEDDED| + |mid|;
    StreamFirst(pre, mid, after);
    StreamInBase(base, y);
    assert At(x, STREAM, |base| + at) by {
      assert y[at..at + |STREAM|] == STREAM;
      assert x[|base| + at..|base| + at + |STREAM|] == STREAM;
    }
    forall k | |base| <= k < |base| + at ensures !At(x, STREAM, k) {
      if At(x, STREAM, k) {
        assert x[k..k + |STREAM|] == y[k - |base|..k - |base| + |STREAM|];
        assert At(y, STREAM, k - |base|);
      }
    }
  }

  lemma LandsFrom(base: Bytes, ef: nat)
    requires Absent(base, EMBEDDED) ==> ef >= |base|
    requires !Absent(base, EMBEDDED) ==> At(base, EMBEDDED, ef) && forall j | j < ef :: !At(base, EMBEDDED, j)
    ensures Lands(base) <==> forall k | ef <= k < |base| :: !At(base + "\n", STREAM, k)
  {
    var z := base + "\n";
    assert forall k | At(z, STREAM, k) :: k < |base|;
    if !Lands(base) {
      var j, k :| At(base, EMBEDDED, j) && At(z, STREAM, k) && j <= k;
      assert ef <= k < |base|;
    }
  }

  lemma StreamVerdict(base: Bytes, pre: Bytes, mid: Bytes, m: Bytes, rest: Bytes)
    requires Shape(pre, mid)
    ensures var x := Sealed(base, pre, mid, m, rest); var ef := Index(x, EMBEDDED, 0);
      && ef >= 0
      && (if Lands(base) then Index(x, STREAM, ef) == StartOf(base, pre, mid) - |STREAM|
          else 0 <= Index(x, STREAM, ef) < |base|)
  {
    DictionaryFound(base, pre, mid, m, rest);
    var ef := Index(Sealed(base, pre, mid, m, rest), EMBEDDED, 0);
    StreamFound(base, pre, mid, m, rest, ef);
    LandsFrom(base, ef);
  }

  lemma ScanAt(x: Bytes, a: nat, end: nat, lands: bool, n: nat)
    requires Index(x, EMBEDDED, 0) >= 0 && n + |STREAM| < a <= end && Index(x, ENDSTREAM, a) == end
    requires var st := Index(x, STREAM, Index(x, EMBEDDED, 0)); if lands then st == a - |STREAM| else 0 <= st < n
    ensures Scan(x) == Some((a, end)) <==> lands
  {
  }

  /** The scanner recovers exactly the manifest's bytes if and only if nothing in base looks like an embedded file. */
  lemma ScanLands(base: Bytes, pre: Bytes, mid: Bytes, m: Bytes, rest: Bytes)
    requires Shape(pre, mid) && JsonLayout(m)
    ensures var a := StartOf(base, pre, mid);
      Scan(Sealed(base, pre, mid, m, rest)) == Some((a, a + |m|)) <==> Lands(base)
  {
    var a := StartOf(base, pre, mid);
    StreamVerdict(base, pre, mid, m, rest);
    SealedParts(base, pre, mid, m, rest);
    var x := Sealed(base, pre, mid, m, rest);
    ManifestEnds(x, a, a + |m|);
    ScanAt(x, a, a + |m|, Lands(base), |base|);
  }

  lemma StreamAtJoin(u: Bytes, v: Bytes)
    requires Opens(v) && Absent(v, EMBEDDED) && At(v, STREAM, 4)
    ensures At(u + v + "\n", STREAM, |u| + 4)
    ensures forall j | At(u + v, EMBEDDED, j) :: j < |u|
  {
    Patterns();
    NoStraddle(u, v, EMBEDDED);
    assert (u + v + "\n")[|u| + 4..|u| + 11] == v[4..11];
  }

  /** The bytes hashed again are base exactly when base holds no attachment marker. */
  lemma RehashesBase(base: Bytes, y: Bytes, start: nat)
    requires ATTACHED <= y && |base| < start <= |base + y|
    ensures HashedPrefix(base + y, start) == base <==> base != "" && Absent(base, ATTACHED)
  {
    var x := base + y;
    Patterns();
    NoStraddle(base, y, ATTACHED);
    assert y[0..|ATTACHED|] == ATTACHED;
    assert At(y, ATTACHED, |base| - |base|);
    assert At(x, ATTACHED, |base|);
    var at := Index(x, ATTACHED, 0);
    assert at != -1 && at <= |base|;
    if Absent(base, ATTACHED) {
      assert at == |base|;
      assert x[..at] == base;
    } else {
      var i :| At(base, ATTACHED, i);
      assert At(x, ATTACHED, i);
    }
    assert |HashedPrefix(x, start)| == if at > 0 then at else start;
  }

  lemma EmptiedFails(base: Bytes, y: Bytes, start: nat)
    requires Absent(base, ATTACHED) && ATTACHED <= y && |ATTACHED| <= start <= |y|
    ensures HashedPrefix(y, start) != base
  {
    assert y[0..|ATTACHED|] == ATTACHED;
    assert At(y, ATTACHED, 0);
    assert HashedPrefix(y, start) == y[..start];
    assert y[..start][0..|ATTACHED|] == ATTACHED;
    assert At(y[..start], ATTACHED, 0);
  }

  /** Whatever stands in front, the bytes hashed again are base exactly when the front is base, or begins with base
      and an attachment marker. */
  lemma RehashesFront(base: Bytes, alt: Bytes, y: Bytes, start: nat)
    requires base != "" && Absent(base, ATTACHED)
    requires ATTACHED <= y && |alt| + |ATTACHED| <= start <= |alt + y|
    ensures HashedPrefix(alt + y, start) == base <==> alt == base || base + ATTACHED <= alt
  {
    if alt == "" {
      assert alt + y == y;
      EmptiedFails(base, y, start);
    } else if Absent(alt, ATTACHED) {
      RehashesBase(alt, y, start);
      if base + ATTACHED <= alt {
        MarkerBehind(base, alt);
      }
    } else {
      RehashesMarked(base, alt, y, start);
    }
  }

  /** A front that begins with base and a marker has its first marker right behind base. */
  lemma MarkerBehind(base: Bytes, alt: Bytes)
    requires Absent(base, ATTACHED) && base + ATTACHED <= alt
    ensures At(alt, ATTACHED, |base|) && forall i | i < |base| :: !At(alt, ATTACHED, i)
  {
    var rest := alt[|base|..];
    assert alt == base + rest;
    assert alt[|base|..|base| + |ATTACHED|] == ATTACHED;
    assert rest[0] == '\n';
    Patterns();
    NoStraddle(base, rest, ATTACHED);
  }

  lemma RehashesMarked(base: Bytes, alt: Bytes, y: Bytes, start: nat)
    requires base != "" && Absent(base, ATTACHED) && !Absent(alt, ATTACHED)
    requires ATTACHED <= y && |alt| + |ATTACHED| <= start <= |alt + y|
    ensures HashedPrefix(alt + y, start) == base <==> alt == base || base + ATTACHED <= alt
  {
    var x := alt + y;
    Patterns();
    NoStraddle(alt, y, ATTACHED);
    var i :| At(alt, ATTACHED, i);
    assert At(x, ATTACHED, i);
    var at := Index(x, ATTACHED, 0);
    assert 0 <= at <= i && At(alt, ATTACHED, at);
    if base + ATTACHED <= alt {
      MarkerBehind(base, alt);
      assert At(x, ATTACHED, |base|) && at == |base|;
      assert x[..at] == base;
    } else if at > 0 {
      FirstMarker(base, alt, at);
      assert x[..at] == alt[..at];
    } else {
      assert x[..start][0..|ATTACHED|] == x[0..|ATTACHED|];
      assert At(x[..start], ATTACHED, 0);
    }
  }

  lemma FirstMarker(base: Bytes, alt: Bytes, at: nat)
    requires At(alt, ATTACHED, at) && !(base + ATTACHED <= alt)
    ensures alt[..at] != base
  {
    assert alt[..at + |ATTACHED|] == alt[..at] + ATTACHED;
  }

  // ---------- a front that does not let the scan land ----------

  /** Strategy A reads in a file what it reads in such a front alone; or, when a stream of the front is never ended
      there, it runs on past the attachment marker behind the front. */
  lemma ScanBehind(front: Bytes, y: Bytes)
    requires !Lands(front) && ATTACHED <= y
    ensures Scan(front).Some? ==> Scan(front + y) == Scan(front)
    ensures Scan(front).None? && Scan(front + y).Some? ==>
      Scan(front + y).value.0 <= |front| + 1 && |front| + |ATTACHED| <= Scan(front + y).value.1
  {
    assert y[0] == ATTACHED[0] == '\n';
    var j, k :| At(front, EMBEDDED, j) && At(front + "\n", STREAM, k) && j <= k;
    SameDictionary(front, y);
    SameStream(front, y, Index(front, EMBEDDED, 0), k);
    NoEndInMarker(y);
    ScanFrom(front, y, Index(front, EMBEDDED, 0), Index(front + y, STREAM, Index(front, EMBEDDED, 0)));
  }

  lemma ScanFrom(front: Bytes, y: Bytes, ef: int, st: int)
    requires ATTACHED <= y && forall j | j < |ATTACHED| :: !At(y, ENDSTREAM, j)
    requires 0 <= ef == Index(front, EMBEDDED, 0) == Index(front + y, EMBEDDED, 0)
    requires 0 <= st == Index(front + y, STREAM, ef) && st <= |front| + 1 - |STREAM|
    requires Index(front, STREAM, ef) == if st + |STREAM| <= |front| then st else -1
    ensures Scan(front).Some? ==> Scan(front + y) == Scan(front)
    ensures Scan(front).None? && Scan(front + y).Some? ==>
      Scan(front + y).value.0 <= |front| + 1 && |front| + |ATTACHED| <= Scan(front + y).value.1
  {
    if st + |STREAM| <= |front| {
      EndInFront(front, y, st + |STREAM|);
      SameScan(front, front + y, |front|);
    } else {
      EndBehind(front, y, st + |STREAM|);
      OpenScan(front, front + y, |front|);
    }
  }

  lemma SameScan(front: Bytes, x: Bytes, n: nat)
    requires n == |front| && 0 <= Index(front, EMBEDDED, 0) == Index(x, EMBEDDED, 0)
    requires var ef := Index(front, EMBEDDED, 0); 0 <= Index(front, STREAM, ef) == Index(x, STREAM, ef) <= n - |STREAM|
    requires var from := Index(front, STREAM, Index(front, EMBEDDED, 0)) + |STREAM|;
      var e, f := Index(front, ENDSTREAM, from), Index(x, ENDSTREAM, from);
      (e >= 0 ==> f == e) && (e < 0 && f >= 0 ==> f >= n + |ATTACHED|)
    ensures Scan(front).Some? ==> Scan(x) == Scan(front)
    ensures Scan(front).None? && Scan(x).Some? ==> Scan(x).value.0 <= n && n + |ATTACHED| <= Scan(x).value.1
  {
  }

  lemma OpenScan(front: Bytes, x: Bytes, n: nat)
    requires n == |front| && 0 <= Index(front, EMBEDDED, 0) == Index(x, EMBEDDED, 0)
    requires var ef := Index(front, EMBEDDED, 0);
      Index(front, STREAM, ef) < 0 <= Index(x, STREAM, ef) == n + 1 - |STREAM|
    requires var f := Index(x, ENDSTREAM, n + 1); f < 0 || f >= n + |ATTACHED|
    ensures Scan(front).None?
    ensures Scan(x).Some? ==> Scan(x).value.0 == n + 1 && n + |ATTACHED| <= Scan(x).value.1
  {
  }

  lemma NoEndInMarker(y: Bytes)
    requires ATTACHED <= y
    ensures forall j | j < |ATTACHED| :: !At(y, ENDSTREAM, j)
  {
    Patterns();
    forall j | j < |ATTACHED| ensures !At(y, ENDSTREAM, j) {
      if At(y, ENDSTREAM, j) {
        AtChar(y, ENDSTREAM, j, 0);
        AtChar(y, ENDSTREAM, j, 1);
      }
    }
  }

  lemma SameDictionary(base: Bytes, y: Bytes)
    requires !Absent(base, EMBEDDED) && y != "" && y[0] == '\n'
    ensures 0 <= Index(base, EMBEDDED, 0) == Index(base + y, EMBEDDED, 0)
  {
    Patterns();
    NoStraddle(base, y, EMBEDDED);
    var j :| At(base, EMBEDDED, j);
    assert At(base + y, EMBEDDED, j);
    var ef := Index(base, EMBEDDED, 0);
    assert At(base + y, EMBEDDED, ef);
  }

  /** The first "stream" line from ef on lies in the front, or its letters end the front. */
  lemma SameStream(front: Bytes, y: Bytes, ef: nat, k: nat)
    requires Opens(y) && ef <= k && At(front + "\n", STREAM, k)
    ensures var st := Index(front + y, STREAM, ef);
      && ef <= st <= |front| + 1 - |STREAM|
      && Index(front, STREAM, ef) == if st + |STREAM| <= |front| then st else -1
  {
    var x := front + y;
    StreamInBase(front, y);
    assert At(x, STREAM, k);
    var st := Index(x, STREAM, ef);
    forall i | i + |STREAM| <= |front| ensures At(x, STREAM, i) <==> At(front, STREAM, i) {
      if 0 <= i {
        assert x[i..i + |STREAM|] == front[i..i + |STREAM|];
      }
    }
    assert st + |STREAM| <= |front| ==> At(front, STREAM, st);
    var r := Index(front, STREAM, ef);
    assert r >= 0 ==> At(x, STREAM, r);
  }

  lemma EndInFront(base: Bytes, y: Bytes, from: nat)
    requires from <= |base| && ATTACHED <= y && forall j | j < |ATTACHED| :: !At(y, ENDSTREAM, j)
    ensures var e := Index(base, ENDSTREAM, from); var f := Index(base + y, ENDSTREAM, from);
      && (e >= 0 ==> f == e)
      && (e < 0 && f >= 0 ==> f >= |base| + |ATTACHED|)
  {
    Patterns();
    assert y[0] == ATTACHED[0] == '\n';
    var e, f := Index(base, ENDSTREAM, from), Index(base + y, ENDSTREAM, from);
    if e >= 0 {
      AtJoin(base, y, ENDSTREAM, e);
      forall i | from <= i < e ensures !At(base + y, ENDSTREAM, i) {
        AtJoin(base, y, ENDSTREAM, i);
      }
    } else if f >= 0 {
      AtJoin(base, y, ENDSTREAM, f);
    }
  }

  lemma EndBehind(front: Bytes, y: Bytes, from: nat)
    requires from > |front| && ATTACHED <= y && forall j | j < |ATTACHED| :: !At(y, ENDSTREAM, j)
    ensures var f := Index(front + y, ENDSTREAM, from); f < 0 || f >= |front| + |ATTACHED|
  {
    Patterns();
    assert y[0] == ATTACHED[0] == '\n';
    AtJoin(front, y, ENDSTREAM, Index(front + y, ENDSTREAM, from));
  }

  // ---------- the bytes hashed again, seen from the front ----------

  /** What is hashed again when something found in the front at `start` is taken for the manifest. */
  ghost function Rehashed(front: Bytes, start: nat): Bytes
    requires start <= |front|
  {
    if Absent(front, ATTACHED) then front else HashedPrefix(front, start)
  }

  lemma RehashedBehind(front: Bytes, y: Bytes, start: nat)
    requires ATTACHED <= y && start <= |front| && front != "" && (start > 0 || front[0] != '\n')
    ensures HashedPrefix(front + y, start) == Rehashed(front, start)
  {
    var x := front + y;
    Patterns();
    assert y[0] == ATTACHED[0] == '\n';
    NoStraddle(front, y, ATTACHED);
    AtStart(front, ATTACHED);
    var at := Index(x, ATTACHED, 0);
    if Absent(front, ATTACHED) {
      assert y[0..|ATTACHED|] == ATTACHED;
      assert At(y, ATTACHED, |front| - |front|);
      assert At(x, ATTACHED, |front|) && at == |front|;
      assert x[..at] == front;
    } else {
      var i :| At(front, ATTACHED, i);
      assert At(x, ATTACHED, i) && At(front, ATTACHED, at);
      assert Index(front, ATTACHED, 0) == at;
      assert x[..at] == front[..at] && x[..start] == front[..start];
    }
  }

  /** Nothing behind the first attachment marker and the manifest's start has a part in what is hashed again. */
  lemma SamePrefix(x: Bytes, behind: Bytes, start: nat)
    requires !Absent(x, ATTACHED) && 0 < start <= |x|
    ensures HashedPrefix(x + behind, start) == HashedPrefix(x, start)
  {
    var whole := x + behind;
    forall i | i + |ATTACHED| <= |x| ensures At(whole, ATTACHED, i) <==> At(x, ATTACHED, i) {
      if 0 <= i {
        assert whole[i..i + |ATTACHED|] == x[i..i + |ATTACHED|];
      }
    }
    var at := Index(x, ATTACHED, 0);
    assert At(whole, ATTACHED, at) && Index(whole, ATTACHED, 0) == at;
    assert whole[..at] == x[..at] && whole[..start] == x[..start];
  }
}

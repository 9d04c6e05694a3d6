/** The fallback of extractManifestJSON (backend/handlers/verify.go): the first "envelope_id" anywhere in the file,
    the last opening brace before it, and the closing brace that matches it by counting. */
module PdfFallback {
  import opened Common
  import opened PdfSearch

  /** The last opening brace at or before i; -1 when there is none. */
  function BraceBefore(x: Bytes, i: int): (r: int)
    requires -1 <= i < |x|
    ensures r <= i && (r < 0 ==> r == -1 && forall k | 0 <= k <= i :: x[k] != '{')
    ensures r >= 0 ==> x[r] == '{' && forall k | r < k <= i :: x[k] != '{'
    decreases i
  {
    if i < 0 then -1 else if x[i] == '{' then i else BraceBefore(x, i - 1)
  }

  /** Just behind the brace that takes the depth to zero; -1 when none does. Braces in strings count like any other. */
  function BraceEnd(x: Bytes, i: nat, depth: int): (r: int)
    requires i <= |x|
    ensures r == -1 || (i < r <= |x| && x[r - 1] == '}')
    decreases |x| - i
  {
    if i == |x| then -1
    else if x[i] == '{' then BraceEnd(x, i + 1, depth + 1)
    else if x[i] != '}' then BraceEnd(x, i + 1, depth)
    else if depth == 1 then i + 1
    else BraceEnd(x, i + 1, depth - 1)
  }

  /** The byte range the fallback takes for the manifest. */
  ghost function ScanBare(x: Bytes): (r: Option<(nat, nat)>)
    ensures r.Some? ==> r.value.0 < r.value.1 <= |x| && x[r.value.0] == '{' && x[r.value.1 - 1] == '}'
  {
    var idx := Index(x, ENVELOPE, 0);
    if idx < 0 then None
    else
      var start := BraceBefore(x, idx);
      if start < 0 then None
      else
        var end := BraceEnd(x, start, 0);
        if end < 0 then None else Some((start, end))
  }

  method WalkBack(x: Bytes, idx: nat) returns (start: int)
    requires idx < |x|
    ensures start == BraceBefore(x, idx)
  {
    start := idx;
    while start >= 0 && x[start] != '{'
      invariant -1 <= start <= idx && BraceBefore(x, start) == BraceBefore(x, idx)
    {
      start := start - 1;
    }
  }

  method WalkForward(x: Bytes, start: nat) returns (end: int)
    requires start <= |x|
    ensures end == BraceEnd(x, start, 0)
  {
    var depth, i := 0, start;
    end := -1;
    while i < |x| && end < 0
      invariant start <= i <= |x| && (end < 0 ==> end == -1)
      invariant BraceEnd(x, start, 0) == if end < 0 then BraceEnd(x, i, depth) else end
      decreases |x| - i
    {
      if x[i] == '{' {
        depth := depth + 1;
      } else if x[i] == '}' {
        depth := depth - 1;
        if depth == 0 { end := i + 1; }
      }
      i := i + 1;
    }
  }

  method FindBare(x: Bytes) returns (r: Option<(nat, nat)>)
    ensures r == ScanBare(x)
  {
    var idx := Find(x, ENVELOPE, 0);
    if idx < 0 { return None; }
    var start := WalkBack(x, idx);
    if start < 0 { return None; }
    var end := WalkForward(x, start);
    if end < 0 { return None; }
    return Some((start, end));
  }

  // ---------- the manifest behind a front ----------

  const OBJECT: Bytes := "{\n  " + ENVELOPE

  /** Counting braces from the manifest's first one ends at its last. */
  predicate BracesClose(m: Bytes) {
    BraceEnd(m, 0, 0) == |m|
  }

  /** Counting does not look behind the place where it ends. */
  lemma {:induction false} BraceEndAppend(m: Bytes, u: Bytes, i: nat, depth: int)
    requires i <= |m|
    ensures var e := BraceEnd(m, i, depth); var f := BraceEnd(m + u, i, depth);
      if e >= 0 then f == e else f < 0 || f > |m|
    decreases |m| - i
  {
    if i < |m| {
      assert (m + u)[i] == m[i];
      BraceEndAppend(m, u, i + 1, if m[i] == '{' then depth + 1 else if m[i] == '}' then depth - 1 else depth);
    }
  }

  lemma {:induction false} BraceEndShift(t: Bytes, x: Bytes, i: nat, depth: int)
    requires i <= |x|
    ensures var e := BraceEnd(x, i, depth); BraceEnd(t + x, |t| + i, depth) == if e < 0 then -1 else |t| + e
    decreases |x| - i
  {
    if i < |x| {
      assert (t + x)[|t| + i] == x[i];
      BraceEndShift(t, x, i + 1, if x[i] == '{' then depth + 1 else if x[i] == '}' then depth - 1 else depth);
    }
  }

  /** The first "envelope_id" behind a front without one is the manifest's own. */
  lemma EnvelopeFound(t: Bytes, m: Bytes, u: Bytes)
    requires '"' !in t && OBJECT <= m
    ensures At(t + m + u, ENVELOPE, |t| + 4) && forall i | i < |t| + 4 :: !At(t + m + u, ENVELOPE, i)
  {
    var x := t + m + u;
    assert m[4..4 + |ENVELOPE|] == OBJECT[4..] == ENVELOPE;
    assert x[|t| + 4..|t| + 4 + |ENVELOPE|] == m[4..4 + |ENVELOPE|];
    forall i | i < |t| + 4 ensures !At(x, ENVELOPE, i) {
      if At(x, ENVELOPE, i) {
        AtChar(x, ENVELOPE, i, 0);
      }
    }
  }

  lemma EnvelopeBehind(front: Bytes, t: Bytes, m: Bytes, u: Bytes)
    requires Opens(t) && '"' !in t && OBJECT <= m
    ensures var x := front + (t + m + u); var idx := Index(x, ENVELOPE, 0);
      if Absent(front, ENVELOPE) then idx == |front| + |t| + 4 else 0 <= idx < |front|
  {
    var y := t + m + u;
    Patterns();
    NoStraddle(front, y, ENVELOPE);
    EnvelopeFound(t, m, u);
    assert At(front + y, ENVELOPE, |front| + |t| + 4) by {
      assert At(y, ENVELOPE, |front| + |t| + 4 - |front|);
    }
    forall i | |front| <= i < |front| + |t| + 4 ensures !At(front + y, ENVELOPE, i) {
      assert !At(y, ENVELOPE, i - |front|);
    }
    if !Absent(front, ENVELOPE) {
      var i :| At(front, ENVELOPE, i);
      assert At(front + y, ENVELOPE, i);
    }
  }

  lemma ObjectChars(m: Bytes)
    requires OBJECT <= m
    ensures |m| >= 5 && m[0] == '{' && m[1] == '\n' && m[2] == ' ' && m[3] == ' ' && m[4] == '"'
  {
    assert OBJECT[0] == '{' && OBJECT[1] == '\n' && OBJECT[2] == ' ' && OBJECT[3] == ' ' && OBJECT[4] == '"';
  }

  lemma BraceOfManifest(x: Bytes, a: nat, m: Bytes)
    requires OBJECT <= m && a + |m| <= |x| && x[a..a + |m|] == m
    ensures BraceBefore(x, a + 4) == a
  {
    ObjectChars(m);
    assert forall k | 0 <= k < 5 :: x[a + k] == m[k];
  }

  /** What the fallback comes back with behind a front without an "envelope_id": a range that begins with the manifest,
      and is the manifest exactly when its braces close; otherwise it ends inside it or behind its "endstream". */
  ghost predicate BareAt(front: Bytes, a: nat, m: Bytes, range: Option<(nat, nat)>) {
    Absent(front, ENVELOPE) ==>
      && (BracesClose(m) ==> range == Some((a, a + |m|)))
      && (!BracesClose(m) && range.Some? ==> range.value.0 == a && range.value.1 != a + |m|)
  }

  lemma BraceEndOfManifest(before: Bytes, m: Bytes, u: Bytes)
    ensures var end := BraceEnd(before + (m + u), |before|, 0);
      if BracesClose(m) then end == |before| + |m| else end != |before| + |m|
  {
    BraceEndShift(before, m + u, 0, 0);
    BraceEndAppend(m, u, 0, 0);
  }

  lemma BareRange(x: Bytes, a: nat, end: int)
    requires a + 4 < |x| && Index(x, ENVELOPE, 0) == a + 4 && BraceBefore(x, a + 4) == a && end == BraceEnd(x, a, 0)
    ensures ScanBare(x) == if end < 0 then None else Some((a, end))
  {
  }

  lemma BareHere(x: Bytes, before: Bytes, m: Bytes, u: Bytes)
    requires x == before + (m + u) && OBJECT <= m && Index(x, ENVELOPE, 0) == |before| + 4
    ensures var a := |before|; var range := ScanBare(x);
      && (BracesClose(m) ==> range == Some((a, a + |m|)))
      && (!BracesClose(m) && range.Some? ==> range.value.0 == a && range.value.1 != a + |m|)
  {
    var a := |before|;
    assert x[a..a + |m|] == m;
    ObjectChars(m);
    BraceOfManifest(x, a, m);
    BraceEndOfManifest(before, m, u);
    BareRange(x, a, BraceEnd(x, a, 0));
  }

  lemma BareFound(front: Bytes, t: Bytes, m: Bytes, u: Bytes, x: Bytes)
    requires Opens(t) && '"' !in t && OBJECT <= m && x == front + (t + (m + u))
    ensures BareAt(front, |front| + |t|, m, ScanBare(x))
  {
    Associate(t, m, u);
    EnvelopeBehind(front, t, m, u);
    if Absent(front, ENVELOPE) {
      Associate(front, t, m + u);
      BareHere(x, front + t, m, u);
    }
  }

  // ---------- a front with an "envelope_id" ----------

  /** Behind a front with an "envelope_id" the fallback takes what it takes in the front alone; or, when the braces do
      not close there, it runs on past the attachment marker behind the front. */
  lemma ScanBareBehind(front: Bytes, y: Bytes)
    requires !Absent(front, ENVELOPE) && ATTACHED <= y
    ensures ScanBare(front).Some? ==> ScanBare(front + y) == ScanBare(front)
    ensures ScanBare(front).None? && ScanBare(front + y).Some? ==>
      ScanBare(front + y).value.0 < |front| && |front| + |ATTACHED| <= ScanBare(front + y).value.1
  {
    SameEnvelope(front, y);
    var idx := Index(front, ENVELOPE, 0);
    SameBraceBefore(front, y, idx);
    var start := BraceBefore(front, idx);
    if start >= 0 {
      BraceEndAppend(front, y, start, 0);
      if BraceEnd(front + y, start, 0) > |front| {
        NoBraceInMarker(front, y, BraceEnd(front + y, start, 0));
      }
    }
  }

  lemma SameEnvelope(front: Bytes, y: Bytes)
    requires !Absent(front, ENVELOPE) && ATTACHED <= y
    ensures 0 <= Index(front, ENVELOPE, 0) == Index(front + y, ENVELOPE, 0)
  {
    Patterns();
    assert y[0] == ATTACHED[0] == '\n';
    NoStraddle(front, y, ENVELOPE);
    var i :| At(front, ENVELOPE, i);
    assert At(front + y, ENVELOPE, i);
    assert At(front + y, ENVELOPE, Index(front, ENVELOPE, 0));
  }

  lemma {:induction false} SameBraceBefore(front: Bytes, y: Bytes, i: int)
    requires -1 <= i < |front|
    ensures BraceBefore(front + y, i) == BraceBefore(front, i)
    decreases i
  {
    if i >= 0 {
      SameBraceBefore(front, y, i - 1);
    }
  }

  lemma NoBraceInMarker(front: Bytes, y: Bytes, end: nat)
    requires ATTACHED <= y && |front| < end <= |front + y| && (front + y)[end - 1] == '}'
    ensures |front| + |ATTACHED| <= end
  {
    assert '}' !in ATTACHED;
    forall k | 0 <= k < |ATTACHED| ensures y[k] != '}' {
      assert y[k] == ATTACHED[k] && ATTACHED[k] in ATTACHED;
    }
  }
}

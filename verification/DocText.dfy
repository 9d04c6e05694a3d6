/** backend/docindex/docindex.go: the two walks over decoded document JSON, as text and as lines. A string is its
    sequence of code points. */
module DocText {
  import opened Common
  import Canonical
  import Diff

  /** An object's fields come in the order sortedKeys gives them; Other is a number, boolean or null. */
  datatype Json = Str(s: string) | Arr(items: seq<Json>) | Obj(fields: seq<Field>) | Other

  datatype Field = Field(key: string, value: Json)

  /** unicode.IsSpace */
  predicate IsSpace(c: char) {
    || c == ' ' || '\t' <= c <= '\r' || c == '\U{85}' || c == '\U{A0}' || c == '\U{1680}'
    || '\U{2000}' <= c <= '\U{200A}'
    || c == '\U{2028}' || c == '\U{2029}' || c == '\U{202F}' || c == '\U{205F}' || c == '\U{3000}'
  }

  const SKIPPED: set<string> := {
    "type", "id", "uuid", "color", "bg", "align", "font", "fontsize", "ff", "fc", "src", "href", "class", "style", "ct",
    "format", "createdAt", "updatedAt"}

  predicate IsBlock(kind: string) {
    kind in {"paragraph", "heading", "blockquote", "codeBlock", "listItem"}
  }

  // ---------- white space ----------

  function TrimLeft(s: string): string {
    if s == "" || !IsSpace(s[0]) then s else TrimLeft(s[1..])
  }

  function TrimRight(s: string): string {
    if s == "" || !IsSpace(s[|s| - 1]) then s else TrimRight(s[..|s| - 1])
  }

  function Trim(s: string): string {
    TrimRight(TrimLeft(s))
  }

  /** The length of the run without white space that s begins with. */
  function Run(s: string): (n: nat)
    ensures n <= |s| && (forall i | 0 <= i < n :: !IsSpace(s[i])) && (n < |s| ==> IsSpace(s[n]))
  {
    if s == "" || IsSpace(s[0]) then 0 else 1 + Run(s[1..])
  }

  /** strings.FieldsFunc: the maximal runs without white space. */
  function Fields(s: string): seq<string>
    decreases |s|
  {
    if s == "" then []
    else if IsSpace(s[0]) then Fields(s[1..])
    else [s[..Run(s)]] + Fields(s[Run(s)..])
  }

  function Join(parts: seq<string>): string {
    if parts == [] then "" else if |parts| == 1 then parts[0] else parts[0] + " " + Join(parts[1..])
  }

  function Normalize(s: string): string {
    Join(Fields(s))
  }

  // ---------- the walks ----------

  function Leaf(s: string): string {
    if Trim(s) == "" then "" else Trim(s) + " "
  }

  function Walk(v: Json): string
    decreases v, 0
  {
    match v
    case Str(s) => Leaf(s)
    case Arr(items) => WalkItems(items)
    case Obj(fields) => WalkFields(fields)
    case Other => ""
  }

  function WalkItems(items: seq<Json>): string
    decreases items, 0
  {
    if items == [] then "" else Walk(items[0]) + WalkItems(items[1..])
  }

  function WalkFields(fields: seq<Field>): string
    decreases fields, 0
  {
    if fields == [] then ""
    else WalkField(fields[0]) + WalkFields(fields[1..])
  }

  function WalkField(f: Field): string
    decreases f, 0
  {
    if f.key in SKIPPED then "" else Walk(f.value)
  }

  /** t["type"].(string), with the empty string for anything else. */
  function Kind(fields: seq<Field>): string {
    if fields == [] then ""
    else if fields[0].key == "type" then (if fields[0].value.Str? then fields[0].value.s else "")
    else Kind(fields[1..])
  }

  function WalkLines(v: Json): seq<string>
    decreases v, 0
  {
    match v
    case Str(s) => if Trim(s) == "" then [] else [Trim(s)]
    case Arr(items) => LinesOfItems(items)
    case Obj(fields) => if IsBlock(Kind(fields)) then [WalkFields(fields)] else LinesOfFields(fields)
    case Other => []
  }

  function LinesOfItems(items: seq<Json>): seq<string>
    decreases items, 0
  {
    if items == [] then [] else WalkLines(items[0]) + LinesOfItems(items[1..])
  }

  function LinesOfFields(fields: seq<Field>): seq<string>
    decreases fields, 0
  {
    if fields == [] then []
    else LinesOfField(fields[0]) + LinesOfFields(fields[1..])
  }

  function LinesOfField(f: Field): seq<string>
    decreases f, 0
  {
    if f.key in SKIPPED then [] else WalkLines(f.value)
  }

  function ExtractText(v: Json): string {
    Normalize(Walk(v))
  }

  function KeptLines(lines: seq<string>): seq<string> {
    if lines == [] then []
    else (if Normalize(lines[0]) == "" then [] else [Normalize(lines[0])]) + KeptLines(lines[1..])
  }

  lemma {:induction false} KeptNext(lines: seq<string>, i: nat)
    requires i < |lines|
    ensures KeptLines(lines[..i + 1]) ==
      KeptLines(lines[..i]) + if Normalize(lines[i]) == "" then [] else [Normalize(lines[i])]
  {
    var head, next := lines[..i], lines[..i + 1];
    if i == 0 {
      assert next[1..] == [];
    } else {
      var tail := lines[1..];
      KeptNext(tail, i - 1);
      assert next[1..] == tail[..i] && head[1..] == tail[..i - 1];
    }
  }

  /** The second half of ExtractLines. */
  method DropEmpty(lines: seq<string>) returns (out: seq<string>)
    ensures out == KeptLines(lines)
  {
    out := [];
    for i := 0 to |lines|
      invariant out == KeptLines(lines[..i])
    {
      KeptNext(lines, i);
      var l := Normalize(lines[i]);
      if l != "" {
        out := out + [l];
      }
    }
    assert lines[..|lines|] == lines;
  }

  method ExtractLines(v: Json) returns (lines: seq<string>)
    ensures lines == KeptLines(WalkLines(v))
  {
    lines := DropEmpty(WalkLines(v));
  }

  // ---------- a document's words ----------

  /** The words of the visible leaves, in document order. */
  function Words(v: Json): seq<string>
    decreases v, 0
  {
    match v
    case Str(s) => Fields(s)
    case Arr(items) => WordsOfItems(items)
    case Obj(fields) => WordsOfFields(fields)
    case Other => []
  }

  function WordsOfItems(items: seq<Json>): seq<string>
    decreases items, 0
  {
    if items == [] then [] else Words(items[0]) + WordsOfItems(items[1..])
  }

  function WordsOfFields(fields: seq<Field>): seq<string>
    decreases fields, 0
  {
    if fields == [] then []
    else WordsOfField(fields[0]) + WordsOfFields(fields[1..])
  }

  function WordsOfField(f: Field): seq<string>
    decreases f, 0
  {
    if f.key in SKIPPED then [] else Words(f.value)
  }

  predicate Spaced(s: string) {
    s == "" || IsSpace(s[|s| - 1])
  }

  lemma RunStops(x: string, sp: char, y: string)
    requires IsSpace(sp)
    ensures var s := x + [sp] + y; var n := Run(x); Run(s) == n && s[..n] == x[..n] && s[n..] == x[n..] + [sp] + y
  {
    var s := x + [sp] + y;
    var n := Run(x);
    assert s[n] == if n < |x| then x[n] else sp;
    assert forall i | 0 <= i < n :: s[i] == x[i];
  }

  /** Fields does not look across a white-space character. */
  lemma {:induction false} FieldsSplit(x: string, sp: char, y: string)
    requires IsSpace(sp)
    ensures Fields(x + [sp] + y) == Fields(x) + Fields(y)
    decreases |x|
  {
    var s := x + [sp] + y;
    if x == "" {
      assert s[1..] == y;
    } else if IsSpace(x[0]) {
      FieldsSplit(x[1..], sp, y);
      assert s[1..] == x[1..] + [sp] + y;
    } else {
      var n := Run(x);
      RunStops(x, sp, y);
      FieldsSplit(x[n..], sp, y);
      assert Fields(s) == [x[..n]] + Fields(x[n..] + [sp] + y);
    }
  }

  lemma FieldsAppend(x: string, y: string)
    requires Spaced(x)
    ensures Fields(x + y) == Fields(x) + Fields(y)
  {
    if x == "" {
      assert x + y == y;
    } else {
      var n := |x| - 1;
      FieldsSplit(x[..n], x[n], y);
      FieldsBeforeSpace(x, n);
      assert x[..n] + [x[n]] == x;
    }
  }

  lemma FieldsBeforeSpace(x: string, n: nat)
    requires n + 1 == |x| && IsSpace(x[n])
    ensures Fields(x[..n]) == Fields(x)
  {
    FieldsSplit(x[..n], x[n], "");
    assert x[..n] + [x[n]] + "" == x;
  }

  lemma {:induction false} TrimLeftFields(s: string)
    ensures Fields(TrimLeft(s)) == Fields(s)
    ensures TrimLeft(s) == "" || !IsSpace(TrimLeft(s)[0])
  {
    if s != "" && IsSpace(s[0]) {
      TrimLeftFields(s[1..]);
    }
  }

  lemma {:induction false} TrimRightFields(s: string)
    ensures Fields(TrimRight(s)) == Fields(s)
    ensures s != "" && !IsSpace(s[0]) ==> TrimRight(s) != "" && TrimRight(s)[0] == s[0]
  {
    if s != "" && IsSpace(s[|s| - 1]) {
      var n := |s| - 1;
      TrimRightFields(s[..n]);
      FieldsSplit(s[..n], s[n], "");
      assert s == s[..n] + [s[n]] + "";
    }
  }

  lemma LeafWords(s: string)
    ensures Fields(Trim(s)) == Fields(s) && Fields(Leaf(s)) == Fields(s) && Spaced(Leaf(s))
    ensures Trim(s) == "" ==> Fields(s) == []
  {
    TrimLeftFields(s);
    TrimRightFields(TrimLeft(s));
    if Trim(s) != "" {
      FieldsSplit(Trim(s), ' ', "");
      assert Leaf(s) == Trim(s) + [' '] + "";
    }
  }

  /** What the text walk collects is the document's words. */
  lemma {:induction false} WalkWords(v: Json)
    ensures Fields(Walk(v)) == Words(v) && Spaced(Walk(v))
    decreases v, 0
  {
    match v
    case Str(s) => LeafWords(s);
    case Arr(items) => WalkItemsWords(items);
    case Obj(fields) => WalkFieldsWords(fields);
    case Other =>
  }

  lemma {:induction false} WalkItemsWords(items: seq<Json>)
    ensures Fields(WalkItems(items)) == WordsOfItems(items) && Spaced(WalkItems(items))
    decreases items, 0
  {
    if items != [] {
      WalkWords(items[0]);
      WalkItemsWords(items[1..]);
      FieldsAppend(Walk(items[0]), WalkItems(items[1..]));
    }
  }

  lemma {:induction false} WalkFieldsWords(fields: seq<Field>)
    ensures Fields(WalkFields(fields)) == WordsOfFields(fields) && Spaced(WalkFields(fields))
    decreases fields, 0
  {
    if fields != [] {
      WalkFieldWords(fields[0]);
      WalkFieldsWords(fields[1..]);
      FieldsAppend(WalkField(fields[0]), WalkFields(fields[1..]));
    }
  }

  lemma {:induction false} WalkFieldWords(f: Field)
    ensures Fields(WalkField(f)) == WordsOfField(f) && Spaced(WalkField(f))
    decreases f, 0
  {
    if f.key !in SKIPPED {
      WalkWords(f.value);
    }
  }

  /** The words of a list of lines. */
  function LineWords(lines: seq<string>): seq<string> {
    if lines == [] then [] else Fields(lines[0]) + LineWords(lines[1..])
  }

  lemma {:induction false} LineWordsAppend(a: seq<string>, b: seq<string>)
    ensures LineWords(a + b) == LineWords(a) + LineWords(b)
  {
    if a == [] {
      assert a + b == b;
    } else {
      LineWordsAppend(a[1..], b);
      assert (a + b)[1..] == a[1..] + b;
      Associate(Fields(a[0]), LineWords(a[1..]), LineWords(b));
    }
  }

  /** The line walk collects the same words, however blocks cut them into lines. */
  lemma {:induction false} LinesWords(v: Json)
    ensures LineWords(WalkLines(v)) == Words(v)
    decreases v, 0
  {
    match v
    case Str(s) =>
      LeafWords(s);
      assert LineWords([Trim(s)]) == Fields(Trim(s)) + LineWords([]);
    case Arr(items) => LinesItemsWords(items);
    case Obj(fields) =>
      if IsBlock(Kind(fields)) {
        WalkFieldsWords(fields);
        assert LineWords([WalkFields(fields)]) == Fields(WalkFields(fields)) + LineWords([]);
      } else {
        LinesFieldsWords(fields);
      }
    case Other =>
  }

  lemma {:induction false} LinesItemsWords(items: seq<Json>)
    ensures LineWords(LinesOfItems(items)) == WordsOfItems(items)
    decreases items, 0
  {
    if items != [] {
      LinesWords(items[0]);
      LinesItemsWords(items[1..]);
      LineWordsAppend(WalkLines(items[0]), LinesOfItems(items[1..]));
    }
  }

  lemma {:induction false} LinesFieldsWords(fields: seq<Field>)
    ensures LineWords(LinesOfFields(fields)) == WordsOfFields(fields)
    decreases fields, 0
  {
    if fields != [] {
      LinesFieldWords(fields[0]);
      LinesFieldsWords(fields[1..]);
      LineWordsAppend(LinesOfField(fields[0]), LinesOfFields(fields[1..]));
    }
  }

  lemma {:induction false} LinesFieldWords(f: Field)
    ensures LineWords(LinesOfField(f)) == WordsOfField(f)
    decreases f, 0
  {
    if f.key !in SKIPPED {
      LinesWords(f.value);
    }
  }

  // ---------- joining ----------

  predicate IsWord(w: string) {
    w != "" && forall c | c in w :: !IsSpace(c)
  }

  lemma {:induction false} FieldsAreWords(s: string)
    ensures forall w | w in Fields(s) :: IsWord(w)
    decreases |s|
  {
    if s == "" {
    } else if IsSpace(s[0]) {
      FieldsAreWords(s[1..]);
    } else {
      FieldsAreWords(s[Run(s)..]);
    }
  }

  lemma {:induction false} JoinAppend(a: seq<string>, b: seq<string>)
    requires a != [] && b != []
    ensures Join(a + b) == Join(a) + " " + Join(b)
  {
    if |a| == 1 {
      assert (a + b)[1..] == b;
    } else {
      JoinAppend(a[1..], b);
      assert (a + b)[1..] == a[1..] + b;
    }
  }

  lemma JoinNonEmpty(parts: seq<string>)
    requires parts != [] && parts[0] != ""
    ensures Join(parts) != ""
  {
  }

  /** Joining normalized lines joins their words. */
  lemma {:induction false} KeptLinesJoin(lines: seq<string>)
    ensures Join(KeptLines(lines)) == Join(LineWords(lines))
    ensures KeptLines(lines) == [] <==> LineWords(lines) == []
  {
    if lines != [] {
      var ws := Fields(lines[0]);
      KeptLinesJoin(lines[1..]);
      FieldsAreWords(lines[0]);
      if ws == [] {
        assert Normalize(lines[0]) == "";
        assert LineWords(lines) == LineWords(lines[1..]);
        assert KeptLines(lines) == KeptLines(lines[1..]);
      } else {
        assert ws[0] in ws;
        JoinNonEmpty(ws);
        var kept := KeptLines(lines[1..]);
        assert KeptLines(lines) == [Join(ws)] + kept;
        if kept == [] {
          assert [Join(ws)] + kept == [Join(ws)];
          assert LineWords(lines) == ws;
        } else {
          JoinAppend([Join(ws)], kept);
          JoinAppend(ws, LineWords(lines[1..]));
        }
      }
    }
  }

  /** The two walks agree: its lines joined by single spaces are its text, for every document, and both are its
      words. */
  lemma WalksAgree(v: Json)
    ensures Join(KeptLines(WalkLines(v))) == ExtractText(v) == Join(Words(v))
  {
    WalkWords(v);
    LinesWords(v);
    KeptLinesJoin(WalkLines(v));
  }

  lemma WordAlone(w: string)
    requires IsWord(w)
    ensures Fields(w) == [w]
  {
    assert forall i | 0 <= i < |w| :: w[i] in w;
    assert Run(w) == |w| && w[..|w|] == w && w[|w|..] == "";
  }

  lemma {:induction false} JoinedFields(ws: seq<string>)
    requires forall w | w in ws :: IsWord(w)
    ensures Fields(Join(ws)) == ws
  {
    if ws == [] {
    } else {
      WordAlone(ws[0]);
      if |ws| > 1 {
        JoinedFields(ws[1..]);
        FieldsSplit(ws[0], ' ', Join(ws[1..]));
        assert Join(ws) == ws[0] + [' '] + Join(ws[1..]);
      }
    }
  }

  /** Normalizing again changes nothing, for any string at all. */
  lemma NormalizeIdempotent(s: string)
    ensures Normalize(Normalize(s)) == Normalize(s)
    ensures Fields(Normalize(s)) == Fields(s)
  {
    FieldsAreWords(s);
    JoinedFields(Fields(s));
  }

  lemma ExtractTextIsNormal(v: Json)
    ensures Normalize(ExtractText(v)) == ExtractText(v)
  {
    NormalizeIdempotent(Walk(v));
  }

  /** Every line kept is itself normalized and holds a word. */
  lemma {:induction false} KeptLinesAreNormal(lines: seq<string>)
    ensures forall l | l in KeptLines(lines) :: l != "" && Normalize(l) == l
  {
    if lines != [] {
      KeptLinesAreNormal(lines[1..]);
      NormalizeIdempotent(lines[0]);
    }
  }

  // ---------- which fields show, and which objects are one line ----------

  /** The code points that separate words. */
  lemma SpaceCodePoints(c: char)
    ensures var p := c as int;
      IsSpace(c) <==>
      9 <= p <= 13 || p == 32 || p == 0x85 || p == 0xA0 || p == 0x1680 || 0x2000 <= p <= 0x200A || p == 0x2028 ||
      p == 0x2029 || p == 0x202F || p == 0x205F || p == 0x3000
  {
  }

  /** The keys of structure and formatting; what stands under any other key is text. */
  predicate IsMetadata(key: string) {
    || key == "type" || key == "id" || key == "uuid" || key == "color" || key == "bg" || key == "align"
    || key == "font" || key == "fontsize" || key == "ff" || key == "fc" || key == "src" || key == "href"
    || key == "class" || key == "style" || key == "ct" || key == "format" || key == "createdAt" || key == "updatedAt"
  }

  lemma {:induction false} FieldsInOrder(fields: seq<Field>, f: Field)
    ensures WordsOfFields(fields + [f]) == WordsOfFields(fields) + WordsOfField(f)
  {
    if fields == [] {
      assert [f][1..] == [] && fields + [f] == [f];
    } else {
      FieldsInOrder(fields[1..], f);
      assert (fields + [f])[1..] == fields[1..] + [f];
      Associate(WordsOfField(fields[0]), WordsOfFields(fields[1..]), WordsOfField(f));
    }
  }

  /** One more field adds its value's words to an object's text, unless its key is one of metadata. */
  lemma FieldShows(fields: seq<Field>, f: Field)
    ensures Fields(ExtractText(Obj(fields + [f]))) ==
      Fields(ExtractText(Obj(fields))) + if IsMetadata(f.key) then [] else Fields(ExtractText(f.value))
  {
    FieldsInOrder(fields, f);
    TextWords(Obj(fields + [f]));
    TextWords(Obj(fields));
    TextWords(f.value);
    MetadataIsSkipped(f);
  }

  lemma MetadataIsSkipped(f: Field)
    ensures WordsOfField(f) == if IsMetadata(f.key) then [] else Words(f.value)
    ensures LinesOfField(f) == if IsMetadata(f.key) then [] else WalkLines(f.value)
  {
    assert f.key in SKIPPED <==> IsMetadata(f.key);
  }

  lemma TextWords(v: Json)
    ensures Fields(ExtractText(v)) == Words(v)
  {
    WalkWords(v);
    NormalizeIdempotent(Walk(v));
  }

  predicate IsTypeAt(fields: seq<Field>, i: int, kind: string) {
    && 0 <= i < |fields| && fields[i] == Field("type", Str(kind))
    && forall j | 0 <= j < i :: fields[j].key != "type"
  }

  /** The object's first field "type" is this string. */
  ghost predicate HasType(fields: seq<Field>, kind: string) {
    exists i :: IsTypeAt(fields, i, kind)
  }

  lemma {:induction false} KindOfType(fields: seq<Field>, kind: string)
    requires kind != ""
    ensures Kind(fields) == kind <==> HasType(fields, kind)
  {
    if fields != [] {
      KindOfType(fields[1..], kind);
      if i :| IsTypeAt(fields, i, kind) && i > 0 {
        assert IsTypeAt(fields[1..], i - 1, kind);
      } else if fields[0].key == "type" {
        assert fields[0] == Field("type", Str(kind)) ==> IsTypeAt(fields, 0, kind);
      } else if i :| IsTypeAt(fields[1..], i, kind) {
        TypeBehind(fields, i, kind);
      }
    }
  }

  lemma TypeBehind(fields: seq<Field>, i: int, kind: string)
    requires fields != [] && fields[0].key != "type" && IsTypeAt(fields[1..], i, kind)
    ensures IsTypeAt(fields, i + 1, kind)
  {
    assert forall j | 0 < j <= i + 1 :: fields[j] == fields[1..][j - 1];
  }

  ghost predicate IsOneLine(fields: seq<Field>) {
    || HasType(fields, "paragraph") || HasType(fields, "heading") || HasType(fields, "blockquote")
    || HasType(fields, "codeBlock") || HasType(fields, "listItem")
  }

  lemma OneLineKind(fields: seq<Field>)
    ensures IsOneLine(fields) <==> IsBlock(Kind(fields))
  {
    KindOfType(fields, "paragraph");
    KindOfType(fields, "heading");
    KindOfType(fields, "blockquote");
    KindOfType(fields, "codeBlock");
    KindOfType(fields, "listItem");
  }

  /** A paragraph, heading, quotation, code block or list item is one line, its text, however it is nested; it is none
      when it has no text. Any other object's lines are those of its fields, one after the other. */
  lemma BlocksAreLines(fields: seq<Field>)
    ensures var text := ExtractText(Obj(fields));
      LinesOf(Obj(fields)) ==
      if IsOneLine(fields) then (if text == "" then [] else [text]) else KeptLines(LinesOfFields(fields))
  {
    OneLineKind(fields);
    KeptLine(WalkFields(fields));
    assert Walk(Obj(fields)) == WalkFields(fields);
    assert WalkLines(Obj(fields)) == if IsBlock(Kind(fields)) then [WalkFields(fields)] else LinesOfFields(fields);
  }

  lemma KeptLine(s: string)
    ensures KeptLines([s]) == if Normalize(s) == "" then [] else [Normalize(s)]
  {
    assert [s][1..] == [];
  }

  lemma {:induction false} LineFieldsInOrder(fields: seq<Field>, f: Field)
    ensures LinesOfFields(fields + [f]) == LinesOfFields(fields) + LinesOfField(f)
  {
    if fields == [] {
      assert [f][1..] == [] && fields + [f] == [f];
    } else {
      LineFieldsInOrder(fields[1..], f);
      assert (fields + [f])[1..] == fields[1..] + [f];
      Associate(LinesOfField(fields[0]), LinesOfFields(fields[1..]), LinesOfField(f));
    }
  }

  lemma {:induction false} KeptLinesConcat(a: seq<string>, b: seq<string>)
    ensures KeptLines(a + b) == KeptLines(a) + KeptLines(b)
  {
    if a == [] {
      assert a + b == b;
    } else {
      var first := if Normalize(a[0]) == "" then [] else [Normalize(a[0])];
      KeptLinesConcat(a[1..], b);
      assert (a + b)[1..] == a[1..] + b && (a + b)[0] == a[0];
      assert KeptLines(a + b) == first + KeptLines(a[1..] + b);
      Associate(first, KeptLines(a[1..]), KeptLines(b));
    }
  }

  /** One more field adds its value's lines to the lines of the fields, unless its key is one of metadata. */
  lemma FieldLinesShow(fields: seq<Field>, f: Field)
    ensures KeptLines(LinesOfFields(fields + [f])) ==
      KeptLines(LinesOfFields(fields)) + if IsMetadata(f.key) then [] else LinesOf(f.value)
  {
    LineFieldsInOrder(fields, f);
    KeptLinesConcat(LinesOfFields(fields), LinesOfField(f));
    MetadataIsSkipped(f);
  }

  // ---------- the diff of two documents ----------

  function LinesOf(v: Json): seq<string> {
    KeptLines(WalkLines(v))
  }

  function Unit(fileType: string): string {
    if fileType == "sheet" then "cell/row" else if fileType == "slide" then "element" else "line"
  }

  function Counted(n: nat, unit: string): string {
    Canonical.Decimal(n) + " " + unit + (if n == 1 then "" else "s")
  }

  const UNCHANGED := "No textual changes"

  function DiffSummary(fileType: string, added: nat, removed: nat): string {
    if added == 0 && removed == 0 then UNCHANGED
    else Counted(added, Unit(fileType)) + " added, " + Counted(removed, Unit(fileType)) + " removed"
  }

  /** The headline says that nothing changed exactly when nothing did. */
  lemma SummaryTellsChanges(fileType: string, added: nat, removed: nat)
    ensures DiffSummary(fileType, added, removed) == UNCHANGED <==> added == 0 && removed == 0
  {
    var d := Canonical.Decimal(added);
    assert d != "" && d[0] in d;
    if added != 0 || removed != 0 {
      assert DiffSummary(fileType, added, removed)[0] == d[0];
    }
  }

  /** And otherwise it counts first what was added, then what was removed, in the unit of the file type. */
  lemma HeadlineCounts(fileType: string, added: nat, removed: nat)
    requires added > 0 || removed > 0
    ensures
      var noun := if fileType == "sheet" then " cell/row" else if fileType == "slide" then " element" else " line";
      DiffSummary(fileType, added, removed) ==
      Canonical.Decimal(added) + noun + (if added != 1 then "s added, " else " added, ") +
      (Canonical.Decimal(removed) + noun + (if removed != 1 then "s removed" else " removed"))
  {
    NounOf(fileType);
    CountedThen(added, Unit(fileType), "s added, ", " added, ");
    CountedThen(removed, Unit(fileType), "s removed", " removed");
    Associate(Counted(added, Unit(fileType)) + " added, ", Counted(removed, Unit(fileType)), " removed");
  }

  lemma NounOf(fileType: string)
    ensures " " + Unit(fileType) ==
      if fileType == "sheet" then " cell/row" else if fileType == "slide" then " element" else " line"
  {
  }

  lemma CountedThen(n: nat, unit: string, many: string, one: string)
    requires many == "s" + one
    ensures Counted(n, unit) + one == Canonical.Decimal(n) + (" " + unit) + if n != 1 then many else one
  {
    assert Counted(n, unit) == Canonical.Decimal(n) + (" " + unit) + if n == 1 then "" else "s";
    Associate(Canonical.Decimal(n) + (" " + unit), if n == 1 then "" else "s", one);
  }

  method DiffContent(fileType: string, oldContent: Json, newContent: Json)
    returns (kind: string, lines: seq<Diff.Op<string>>, summary: string, added: nat, removed: nat)
    ensures kind == if fileType == "sheet" || fileType == "slide" then "summary" else "line"
    ensures lines == Diff.Walk(LinesOf(oldContent), LinesOf(newContent), 0, 0)
    ensures summary == DiffSummary(fileType, added, removed)
    ensures added == Diff.Added(lines) && removed == Diff.Removed(lines)
  {
    var oldLines := ExtractLines(oldContent);
    var newLines := ExtractLines(newContent);
    lines := Diff.DiffLines(oldLines, newLines);
    added, removed := Diff.CountChanges(lines);
    kind := "line";
    if fileType == "sheet" || fileType == "slide" {
      kind := "summary";
    }
    summary := DiffSummary(fileType, added, removed);
  }

  /** Two documents differ in no line exactly when their lines are the same, and then their text is the same too. */
  lemma UnchangedDocuments(oldContent: Json, newContent: Json)
    ensures var d := Diff.Walk(LinesOf(oldContent), LinesOf(newContent), 0, 0);
      && (Diff.Added(d) + Diff.Removed(d) == 0 <==> LinesOf(oldContent) == LinesOf(newContent))
      && (Diff.Added(d) + Diff.Removed(d) == 0 ==> ExtractText(oldContent) == ExtractText(newContent))
  {
    Diff.UnchangedIff(LinesOf(oldContent), LinesOf(newContent));
    WalksAgree(oldContent);
    WalksAgree(newContent);
  }
}

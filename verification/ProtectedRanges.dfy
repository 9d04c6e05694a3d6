/** backend/handlers/protected_ranges.go: the gate on spreadsheet writes. Content is the sheet array that parseSheets
    decodes, empty when the stored content is not one. */
module ProtectedRanges {
  import opened Common

  datatype Rect = Rect(startRow: int, startCol: int, endRow: int, endCol: int)
  {
    /** The corners may come in any order. */
    predicate Contains(row: int, col: int) {
      && (if startRow > endRow then endRow else startRow) <= row <= (if startRow > endRow then startRow else endRow)
      && (if startCol > endCol then endCol else startCol) <= col <= (if startCol > endCol then startCol else endCol)
    }
  }

  datatype Range = Range(id: string, sheetIndex: int, rect: Rect, warningOnly: bool, editors: seq<string>)

  /** `sig` is the canonical signature cellSig computes from the cell's value; "" when it has none. */
  datatype Cell = Cell(row: int, col: int, sig: string)

  datatype Sheet = Sheet(cells: seq<Cell>, ranges: seq<Range>)

  type Content = seq<Sheet>

  datatype Requester = Requester(account: string, owner: string, isAdmin: bool)

  type Cells = map<(int, int), string>

  // ---------- what a content protects and holds ----------

  /** Ranges by id; of two with the same id the later wins, and a range without an id is ignored. */
  function AddRanges(m: map<string, Range>, ranges: seq<Range>): map<string, Range>
    decreases |ranges|
  {
    if ranges == [] then m
    else AddRanges(if ranges[0].id == "" then m else m[ranges[0].id := ranges[0]], ranges[1..])
  }

  function AddSheets(m: map<string, Range>, sheets: Content): map<string, Range>
    decreases |sheets|
  {
    if sheets == [] then m else AddSheets(AddRanges(m, sheets[0].ranges), sheets[1..])
  }

  function Protected(sheets: Content): map<string, Range> {
    AddSheets(map[], sheets)
  }

  /** Signatures by position; of two cells at one position the later wins. */
  function CellsOf(m: Cells, cells: seq<Cell>): Cells
    decreases |cells|
  {
    if cells == [] then m else CellsOf(m[(cells[0].row, cells[0].col) := cells[0].sig], cells[1..])
  }

  function SheetCells(sheets: Content, index: int): Cells {
    if 0 <= index < |sheets| then CellsOf(map[], sheets[index].cells) else map[]
  }

  /** A missing cell reads as the empty signature. */
  function Lookup(m: Cells, key: (int, int)): string {
    if key in m then m[key] else ""
  }

  function Sig(sheets: Content, index: int, row: int, col: int): string {
    Lookup(SheetCells(sheets, index), (row, col))
  }

  // ---------- the rule ----------

  predicate MayEdit(r: Range, who: Requester) {
    who.isAdmin || (who.owner != "" && who.account == who.owner) || who.account in r.editors
  }

  /** np protects the same rectangle for the same people. */
  predicate SameProtection(r: Range, np: Range) {
    !np.warningOnly && np.sheetIndex == r.sheetIndex && np.rect == r.rect && multiset(np.editors) == multiset(r.editors)
  }

  /** No cell of the rectangle, present or not, has changed. */
  ghost predicate SameCells(r: Range, before: Content, after: Content) {
    forall row, col | r.rect.Contains(row, col) ::
      Sig(before, r.sheetIndex, row, col) == Sig(after, r.sheetIndex, row, col)
  }

  ghost predicate Survives(r: Range, before: Content, after: Content) {
    && r.id in Protected(after) && SameProtection(r, Protected(after)[r.id])
    && SameCells(r, before, after)
  }

  /** Every restricted range the requester may not edit survives. */
  ghost predicate Permitted(before: Content, after: Content, who: Requester) {
    forall id | id in Protected(before) && !Protected(before)[id].warningOnly && !MayEdit(Protected(before)[id], who) ::
      Survives(Protected(before)[id], before, after)
  }

  lemma {:induction false} AddRangesKeys(m: map<string, Range>, ranges: seq<Range>)
    requires forall id | id in m :: m[id].id == id
    ensures forall id | id in AddRanges(m, ranges) :: AddRanges(m, ranges)[id].id == id
    decreases |ranges|
  {
    if ranges != [] {
      AddRangesKeys(if ranges[0].id == "" then m else m[ranges[0].id := ranges[0]], ranges[1..]);
    }
  }

  lemma {:induction false} AddSheetsKeys(m: map<string, Range>, sheets: Content)
    requires forall id | id in m :: m[id].id == id
    ensures forall id | id in AddSheets(m, sheets) :: AddSheets(m, sheets)[id].id == id
    decreases |sheets|
  {
    if sheets != [] {
      AddRangesKeys(m, sheets[0].ranges);
      AddSheetsKeys(AddRanges(m, sheets[0].ranges), sheets[1..]);
    }
  }

  /** All ranges of all sheets, in order. */
  function AllRanges(sheets: Content): seq<Range> {
    if sheets == [] then [] else sheets[0].ranges + AllRanges(sheets[1..])
  }

  lemma {:induction false} AddRangesAppend(m: map<string, Range>, a: seq<Range>, b: seq<Range>)
    ensures AddRanges(m, a + b) == AddRanges(AddRanges(m, a), b)
    decreases |a|
  {
    if a == [] {
      assert a + b == b;
    } else {
      AddRangesAppend(if a[0].id == "" then m else m[a[0].id := a[0]], a[1..], b);
      assert (a + b)[1..] == a[1..] + b;
    }
  }

  lemma {:induction false} SheetsFlatten(m: map<string, Range>, sheets: Content)
    ensures AddSheets(m, sheets) == AddRanges(m, AllRanges(sheets))
    decreases |sheets|
  {
    if sheets != [] {
      SheetsFlatten(AddRanges(m, sheets[0].ranges), sheets[1..]);
      AddRangesAppend(m, sheets[0].ranges, AllRanges(sheets[1..]));
    }
  }

  /** The last range with this id. */
  function LastRange(ranges: seq<Range>, id: string): Option<Range> {
    if ranges == [] then None
    else
      var n := |ranges| - 1;
      if ranges[n].id == id then Some(ranges[n]) else LastRange(ranges[..n], id)
  }

  lemma {:induction false} LastRangeWins(ranges: seq<Range>, id: string)
    ensures var r := AddRanges(map[], ranges);
      (if id in r then Some(r[id]) else None) == if id == "" then None else LastRange(ranges, id)
  {
    if ranges != [] {
      var n := |ranges| - 1;
      LastRangeWins(ranges[..n], id);
      AddRangesAppend(map[], ranges[..n], [ranges[n]]);
      assert ranges == ranges[..n] + [ranges[n]];
    }
  }

  /** What a content protects under an id is its last range of that id, whichever sheet carries it; a range without id
      protects nothing. */
  lemma ProtectedIsLast(sheets: Content, id: string)
    ensures (if id in Protected(sheets) then Some(Protected(sheets)[id]) else None) ==
            if id == "" then None else LastRange(AllRanges(sheets), id)
  {
    SheetsFlatten(map[], sheets);
    LastRangeWins(AllRanges(sheets), id);
  }

  /** The signature of the last cell at a position, empty when there is none. */
  function LastSig(cells: seq<Cell>, key: (int, int)): string {
    if cells == [] then ""
    else
      var n := |cells| - 1;
      if (cells[n].row, cells[n].col) == key then cells[n].sig else LastSig(cells[..n], key)
  }

  lemma {:induction false} CellsOfAppend(m: Cells, cells: seq<Cell>, c: Cell)
    ensures CellsOf(m, cells + [c]) == CellsOf(m, cells)[(c.row, c.col) := c.sig]
    decreases |cells|
  {
    if cells == [] {
      assert cells + [c] == [c];
    } else {
      CellsOfAppend(m[(cells[0].row, cells[0].col) := cells[0].sig], cells[1..], c);
      assert (cells + [c])[1..] == cells[1..] + [c];
    }
  }

  lemma {:induction false} LastCellWins(cells: seq<Cell>, key: (int, int))
    ensures Lookup(CellsOf(map[], cells), key) == LastSig(cells, key)
  {
    if cells != [] {
      var n := |cells| - 1;
      LastCellWins(cells[..n], key);
      CellsOfAppend(map[], cells[..n], cells[n]);
      assert cells == cells[..n] + [cells[n]];
    }
  }

  // ---------- the rule, spelled out ----------

  /** Neither an admin, nor the owner where there is one, nor listed as an editor. */
  predicate HasNoRight(r: Range, who: Requester) {
    !who.isAdmin && (who.owner == "" || who.account != who.owner) && forall e | e in r.editors :: e != who.account
  }

  /** The corners are cells of the rectangle, in whatever order they come. */
  predicate Between(a: int, x: int, b: int) {
    a <= x <= b || b <= x <= a
  }

  /** The signature at a position of a sheet: that of the last cell there, empty without cell or sheet. */
  function CellAt(sheets: Content, index: int, row: int, col: int): string {
    if 0 <= index < |sheets| then LastSig(sheets[index].cells, (row, col)) else ""
  }

  /** The content still protects the same corners of the same sheet for the same people, for real, under the range's
      id. */
  ghost predicate StillProtects(r: Range, sheets: Content) {
    match LastRange(AllRanges(sheets), r.id)
    case None => false
    case Some(np) =>
      && !np.warningOnly && np.sheetIndex == r.sheetIndex && multiset(np.editors) == multiset(r.editors)
      && np.rect.startRow == r.rect.startRow && np.rect.startCol == r.rect.startCol
      && np.rect.endRow == r.rect.endRow && np.rect.endCol == r.rect.endCol
  }

  /** Every position between the corners reads the same before and after. */
  ghost predicate CellsKept(r: Range, before: Content, after: Content) {
    forall row, col | Between(r.rect.startRow, row, r.rect.endRow) && Between(r.rect.startCol, col, r.rect.endCol) ::
      CellAt(before, r.sheetIndex, row, col) == CellAt(after, r.sheetIndex, row, col)
  }

  /** Every range that restricts this person stands, and so do its cells. */
  ghost predicate RangesStand(before: Content, after: Content, who: Requester) {
    forall id | id != "" && LastRange(AllRanges(before), id).Some? ::
      var r := LastRange(AllRanges(before), id).value;
      r.warningOnly || !HasNoRight(r, who) || (StillProtects(r, after) && CellsKept(r, before, after))
  }

  lemma SigIsCellAt(sheets: Content, index: int, row: int, col: int)
    ensures Sig(sheets, index, row, col) == CellAt(sheets, index, row, col)
  {
    if 0 <= index < |sheets| {
      LastCellWins(sheets[index].cells, (row, col));
    }
  }

  lemma ContainsIsBetween(r: Rect, row: int, col: int)
    ensures r.Contains(row, col) <==> Between(r.startRow, row, r.endRow) && Between(r.startCol, col, r.endCol)
  {
  }

  lemma SameCellsIsCellsKept(r: Range, before: Content, after: Content)
    ensures SameCells(r, before, after) <==> CellsKept(r, before, after)
  {
    forall row, col
      ensures r.rect.Contains(row, col) <==>
        Between(r.rect.startRow, row, r.rect.endRow) && Between(r.rect.startCol, col, r.rect.endCol)
      ensures Sig(before, r.sheetIndex, row, col) == CellAt(before, r.sheetIndex, row, col)
      ensures Sig(after, r.sheetIndex, row, col) == CellAt(after, r.sheetIndex, row, col)
    {
      ContainsIsBetween(r.rect, row, col);
      SigIsCellAt(before, r.sheetIndex, row, col);
      SigIsCellAt(after, r.sheetIndex, row, col);
    }
  }

  lemma SurvivesIsStands(r: Range, before: Content, after: Content)
    requires r.id != ""
    ensures Survives(r, before, after) <==> StillProtects(r, after) && CellsKept(r, before, after)
  {
    ProtectedIsLast(after, r.id);
    SameCellsIsCellsKept(r, before, after);
  }

  lemma {:induction false} LastRangeHasId(ranges: seq<Range>, id: string)
    ensures LastRange(ranges, id).Some? ==> LastRange(ranges, id).value.id == id
  {
    if ranges != [] {
      LastRangeHasId(ranges[..|ranges| - 1], id);
    }
  }

  lemma MayEditIsRight(r: Range, who: Requester)
    ensures MayEdit(r, who) <==> !HasNoRight(r, who)
  {
  }

  /** A write is permitted exactly when every range that restricts the requester still protects the same cells for the
      same people, and each of those cells, its corners included, still reads the same. */
  lemma PermittedIsStanding(before: Content, after: Content, who: Requester)
    ensures Permitted(before, after, who) <==> RangesStand(before, after, who)
  {
    forall id: string
      ensures (id in Protected(before) && !Protected(before)[id].warningOnly && !MayEdit(Protected(before)[id], who) ==>
                Survives(Protected(before)[id], before, after)) <==>
              (id != "" && LastRange(AllRanges(before), id).Some? ==>
                var r := LastRange(AllRanges(before), id).value;
                r.warningOnly || !HasNoRight(r, who) || (StillProtects(r, after) && CellsKept(r, before, after)))
    {
      PermittedUnder(before, after, who, id);
    }
  }

  lemma PermittedUnder(before: Content, after: Content, who: Requester, id: string)
    ensures (id in Protected(before) && !Protected(before)[id].warningOnly && !MayEdit(Protected(before)[id], who) ==>
              Survives(Protected(before)[id], before, after)) <==>
            (id != "" && LastRange(AllRanges(before), id).Some? ==>
              var r := LastRange(AllRanges(before), id).value;
              r.warningOnly || !HasNoRight(r, who) || (StillProtects(r, after) && CellsKept(r, before, after)))
  {
    ProtectedIsLast(before, id);
    LastRangeHasId(AllRanges(before), id);
    if id in Protected(before) {
      var r := Protected(before)[id];
      MayEditIsRight(r, who);
      SurvivesIsStands(r, before, after);
    }
  }

  // ---------- chains of writes ----------

  /** Each content was accepted as a write over its predecessor. */
  ghost predicate Chain(contents: seq<Content>, who: seq<Requester>)
    requires |contents| == |who| + 1
  {
    forall i | 0 <= i < |who| :: Permitted(contents[i], contents[i + 1], who[i])
  }

  lemma SameEditorsSameRights(r: Range, np: Range, who: Requester)
    requires multiset(np.editors) == multiset(r.editors)
    ensures MayEdit(np, who) == MayEdit(r, who)
  {
    assert who.account in np.editors <==> who.account in multiset(np.editors);
    assert who.account in r.editors <==> who.account in multiset(r.editors);
  }

  /** Protection holds over any sequence of accepted writes by people with no right to the range: at the end the range
      and every cell in it are as at the start. */
  lemma {:induction false} ProtectionHoldsOverWrites(contents: seq<Content>, who: seq<Requester>, id: string)
    requires |contents| == |who| + 1 && Chain(contents, who)
    requires id in Protected(contents[0]) && !Protected(contents[0])[id].warningOnly
    requires forall i | 0 <= i < |who| :: !MayEdit(Protected(contents[0])[id], who[i])
    ensures Survives(Protected(contents[0])[id], contents[0], contents[|who|])
    decreases |who|
  {
    var r := Protected(contents[0])[id];
    AddSheetsKeys(map[], contents[0]);
    if |who| > 0 {
      var n := |who| - 1;
      var shorter := contents[..n + 1];
      assert forall i | 0 <= i <= n :: shorter[i] == contents[i];
      assert forall i | 0 <= i < n :: who[..n][i] == who[i];
      ProtectionHoldsOverWrites(shorter, who[..n], id);
      var mid := contents[n];
      var rm := Protected(mid)[id];
      AddSheetsKeys(map[], mid);
      SameEditorsSameRights(r, rm, who[n]);
      assert Permitted(mid, contents[n + 1], who[n]);
      assert Survives(rm, mid, contents[n + 1]);
      forall row, col | r.rect.Contains(row, col)
        ensures Sig(contents[0], r.sheetIndex, row, col) == Sig(contents[n + 1], r.sheetIndex, row, col)
      {
        assert Sig(contents[0], r.sheetIndex, row, col) == Sig(mid, r.sheetIndex, row, col);
      }
    }
  }

  /** Cell by cell: no sequence of accepted writes by people without the right changes a protected cell. */
  lemma ProtectedCellHolds(contents: seq<Content>, who: seq<Requester>, id: string, row: int, col: int)
    requires |contents| == |who| + 1 && forall i | 0 <= i < |who| :: RangesStand(contents[i], contents[i + 1], who[i])
    requires id != "" && LastRange(AllRanges(contents[0]), id).Some?
    requires var r := LastRange(AllRanges(contents[0]), id).value;
      && !r.warningOnly && (forall i | 0 <= i < |who| :: HasNoRight(r, who[i]))
      && Between(r.rect.startRow, row, r.rect.endRow) && Between(r.rect.startCol, col, r.rect.endCol)
    ensures var r := LastRange(AllRanges(contents[0]), id).value;
      CellAt(contents[0], r.sheetIndex, row, col) == CellAt(contents[|who|], r.sheetIndex, row, col)
  {
    var r := LastRange(AllRanges(contents[0]), id).value;
    ProtectedIsLast(contents[0], id);
    LastRangeHasId(AllRanges(contents[0]), id);
    forall i | 0 <= i < |who| ensures Permitted(contents[i], contents[i + 1], who[i]) && !MayEdit(r, who[i]) {
      PermittedIsStanding(contents[i], contents[i + 1], who[i]);
      MayEditIsRight(r, who[i]);
    }
    ProtectionHoldsOverWrites(contents, who, id);
    SurvivesIsStands(r, contents[0], contents[|who|]);
  }

  // ---------- the gate ----------

  method CollectProtected(sheets: Content) returns (out: map<string, Range>)
    ensures out == Protected(sheets)
  {
    out := map[];
    for i := 0 to |sheets|
      invariant AddSheets(out, sheets[i..]) == Protected(sheets)
    {
      assert sheets[i..][1..] == sheets[i + 1..];
      var ranges := sheets[i].ranges;
      ghost var start := out;
      for j := 0 to |ranges|
        invariant AddRanges(out, ranges[j..]) == AddRanges(start, ranges)
      {
        assert ranges[j..][1..] == ranges[j + 1..];
        if ranges[j].id != "" {
          out := out[ranges[j].id := ranges[j]];
        }
      }
    }
  }

  /** One sheet's entry of cellMaps; a sheet index without a sheet has no cells. */
  method CellMap(sheets: Content, index: int) returns (m: Cells)
    ensures m == SheetCells(sheets, index)
  {
    m := map[];
    if 0 <= index < |sheets| {
      var cells := sheets[index].cells;
      for i := 0 to |cells|
        invariant CellsOf(m, cells[i..]) == CellsOf(map[], cells)
      {
        assert cells[i..][1..] == cells[i + 1..];
        m := m[(cells[i].row, cells[i].col) := cells[i].sig];
      }
    }
  }

  function Count(seen: map<string, int>, x: string): int {
    if x in seen then seen[x] else 0
  }

  method CountUp(a: seq<string>) returns (seen: map<string, int>)
    ensures forall x :: Count(seen, x) == multiset(a)[x]
  {
    seen := map[];
    for i := 0 to |a|
      invariant forall x :: Count(seen, x) == multiset(a[..i])[x]
    {
      assert a[..i + 1] == a[..i] + [a[i]];
      seen := seen[a[i] := Count(seen, a[i]) + 1];
    }
    assert a[..|a|] == a;
  }

  lemma CountDown(a: seq<string>, b: seq<string>, i: nat, seen: map<string, int>)
    requires i < |b| && forall x :: Count(seen, x) + multiset(b[..i])[x] == multiset(a)[x]
    ensures var next := seen[b[i] := Count(seen, b[i]) - 1];
      forall x :: Count(next, x) + multiset(b[..i + 1])[x] == multiset(a)[x]
  {
    assert b[..i + 1] == b[..i] + [b[i]];
  }

  method SameEditorSet(a: seq<string>, b: seq<string>) returns (same: bool)
    ensures same <==> multiset(a) == multiset(b)
  {
    if |a| != |b| {
      assert |multiset(a)| == |a| && |multiset(b)| == |b|;
      return false;
    }
    var seen := CountUp(a);
    for i := 0 to |b|
      invariant forall x :: Count(seen, x) + multiset(b[..i])[x] == multiset(a)[x]
      invariant forall x :: Count(seen, x) >= 0
    {
      CountDown(a, b, i, seen);
      seen := seen[b[i] := Count(seen, b[i]) - 1];
      if seen[b[i]] < 0 {
        assert b == b[..i + 1] + b[i + 1..];
        assert multiset(b)[b[i]] >= multiset(b[..i + 1])[b[i]];
        return false;
      }
    }
    assert b[..|b|] == b;
    assert forall x :: Count(seen, x) >= 0 ==> multiset(b)[x] <= multiset(a)[x];
    SubMultisetOfSameSize(multiset(a), multiset(b));
    return true;
  }

  lemma SubMultisetOfSameSize<T>(a: multiset<T>, b: multiset<T>)
    requires b <= a && |a| == |b|
    ensures a == b
  {
    assert a == b + (a - b);
  }

  ghost predicate SameOn(rect: Rect, before: Cells, after: Cells, keys: set<(int, int)>) {
    forall key | key in keys && rect.Contains(key.0, key.1) :: Lookup(before, key) == Lookup(after, key)
  }

  ghost predicate SameOver(rect: Rect, before: Cells, after: Cells) {
    forall row, col | rect.Contains(row, col) :: Lookup(before, (row, col)) == Lookup(after, (row, col))
  }

  /** Every position between the corners has the same signature in both maps. */
  ghost predicate SameBetween(rect: Rect, before: Cells, after: Cells) {
    forall row, col | Between(rect.startRow, row, rect.endRow) && Between(rect.startCol, col, rect.endCol) ::
      Lookup(before, (row, col)) == Lookup(after, (row, col))
  }

  lemma OverIsBetween(rect: Rect, before: Cells, after: Cells)
    ensures SameOver(rect, before, after) <==> SameBetween(rect, before, after)
  {
    forall row, col
      ensures rect.Contains(row, col) <==>
        Between(rect.startRow, row, rect.endRow) && Between(rect.startCol, col, rect.endCol)
    {
      ContainsIsBetween(rect, row, col);
    }
  }

  /** The walk over the union of the cells present before and after. */
  method CellsUnchanged(rect: Rect, before: Cells, after: Cells) returns (same: bool)
    ensures same <==> SameBetween(rect, before, after)
  {
    OverIsBetween(rect, before, after);
    var seen: set<(int, int)> := {};
    var todo := before.Keys + after.Keys;
    while todo != {}
      invariant Walked(before, after, seen, todo)
      invariant SameOn(rect, before, after, seen)
      decreases |todo|
    {
      var key :| key in todo;
      if rect.Contains(key.0, key.1) && Lookup(before, key) != Lookup(after, key) {
        DiffersAt(rect, before, after, key);
        return false;
      }
      OneMore(rect, before, after, seen, key);
      WalkedOn(before, after, seen, todo, key);
      seen, todo := seen + {key}, todo - {key};
    }
    assert Walked(before, after, seen, {});
    AllSeen(rect, before, after, seen);
    return true;
  }

  /** The union of the cells is what was seen and what is left. */
  predicate Walked(before: Cells, after: Cells, seen: set<(int, int)>, todo: set<(int, int)>) {
    todo + seen == before.Keys + after.Keys
  }

  lemma WalkedOn(before: Cells, after: Cells, seen: set<(int, int)>, todo: set<(int, int)>, key: (int, int))
    requires Walked(before, after, seen, todo) && key in todo
    ensures Walked(before, after, seen + {key}, todo - {key})
  {
  }

  lemma OneMore(rect: Rect, before: Cells, after: Cells, keys: set<(int, int)>, key: (int, int))
    requires SameOn(rect, before, after, keys)
    requires rect.Contains(key.0, key.1) ==> Lookup(before, key) == Lookup(after, key)
    ensures SameOn(rect, before, after, keys + {key})
  {
  }

  lemma DiffersAt(rect: Rect, before: Cells, after: Cells, key: (int, int))
    requires rect.Contains(key.0, key.1) && Lookup(before, key) != Lookup(after, key)
    ensures !SameOver(rect, before, after)
  {
    assert Lookup(before, (key.0, key.1)) != Lookup(after, (key.0, key.1));
  }

  /** Where neither map has a cell, both read as empty. */
  lemma AllSeen(rect: Rect, before: Cells, after: Cells, seen: set<(int, int)>)
    requires Walked(before, after, seen, {})
    requires SameOn(rect, before, after, seen)
    ensures SameOver(rect, before, after)
  {
    forall row, col | rect.Contains(row, col) ensures Lookup(before, (row, col)) == Lookup(after, (row, col)) {
      var key := (row, col);
      if key in before || key in after { assert key in seen; }
    }
  }

  /** Whether one restricted range survives the write. */
  method CheckRange(r: Range, oldContent: Content, newContent: Content, newProtected: map<string, Range>)
    returns (ok: bool)
    requires newProtected == Protected(newContent)
    ensures ok <==> Survives(r, oldContent, newContent)
  {
    if r.id !in newProtected { return false; }
    var np := newProtected[r.id];
    var sameEditors := SameEditorSet(np.editors, r.editors);
    if np.warningOnly || np.sheetIndex != r.sheetIndex || np.rect != r.rect || !sameEditors { return false; }
    var before := CellMap(oldContent, r.sheetIndex);
    var after := CellMap(newContent, r.sheetIndex);
    ok := CellsUnchanged(r.rect, before, after);
    OverIsBetween(r.rect, before, after);
    SameOverSheets(r, oldContent, newContent);
  }

  lemma SameOverSheets(r: Range, before: Content, after: Content)
    ensures SameOver(r.rect, SheetCells(before, r.sheetIndex), SheetCells(after, r.sheetIndex)) <==>
      SameCells(r, before, after)
  {
    var first, next := SheetCells(before, r.sheetIndex), SheetCells(after, r.sheetIndex);
    forall row, col
      ensures Sig(before, r.sheetIndex, row, col) == Lookup(first, (row, col))
      ensures Sig(after, r.sheetIndex, row, col) == Lookup(next, (row, col))
    {
    }
  }

  /** The gate accepts exactly the permitted writes; without distinct identities it accepts everything. */
  method Enforce(authEnabled: bool, oldContent: Content, newContent: Content, who: Requester) returns (ok: bool)
    ensures ok <==> !authEnabled || Permitted(oldContent, newContent, who)
    ensures ok <==> !authEnabled || RangesStand(oldContent, newContent, who)
  {
    if !authEnabled { return true; }
    PermittedIsStanding(oldContent, newContent, who);
    var oldProtected := CollectProtected(oldContent);
    if |oldContent| == 0 || |oldProtected| == 0 { return true; }
    var newProtected := CollectProtected(newContent);
    AddSheetsKeys(map[], oldContent);
    var todo := oldProtected.Keys;
    while todo != {}
      invariant todo <= oldProtected.Keys
      invariant forall id | id in oldProtected && id !in todo && !oldProtected[id].warningOnly &&
        !MayEdit(oldProtected[id], who) ::
        Survives(oldProtected[id], oldContent, newContent)
      decreases |todo|
    {
      var id :| id in todo;
      var r := oldProtected[id];
      if !r.warningOnly && !MayEdit(r, who) {
        var kept := CheckRange(r, oldContent, newContent, newProtected);
        if !kept { return false; }
      }
      todo := todo - {id};
    }
    return true;
  }
}

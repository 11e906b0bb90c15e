/**
 * `parseSheet` of `parse-sheet.ts`: a worksheet part becomes a record from
 * cell reference (the `r` attribute of each `c`) to decoded value.
 * References are taken as written and are not validated here.
 */
module SparseSheet {
  import opened Wrappers
  import opened Buffers
  import opened XmlTree
  import opened JsObject
  import opened CellValues
  import opened SharedStrings

  /** `XlsxSheetData`. */
  type SheetData = Record<CellValue>

  /** The `c` descendants of each row, row after row, in document order. */
  function CellsOfRows(rows: seq<Node>): seq<Node>
  {
    if rows == [] then [] else CellsOfRows(rows[..|rows| - 1]) + QueryAll(rows[|rows| - 1], "c")
  }

  /** The reference of a cell; None when `r` is absent or "" (falsy). */
  function CellRef(cell: Node): (ref: Option<string>)
    ensures ref.Some? ==> ref.value != ""
  {
    if HasNonEmptyAttribute(cell, "r") then GetAttribute(cell, "r") else None
  }

  /** `result[cellRef] = parseCellValue(cellEl, sharedStrings)` for each referenced cell, in order. */
  function Assign(cells: seq<Node>, sharedStrings: seq<string>): SheetData
  {
    if cells == [] then []
    else
      var before := Assign(cells[..|cells| - 1], sharedStrings);
      var cell := cells[|cells| - 1];
      match CellRef(cell)
      case None => before
      case Some(ref) => Put(before, ref, ParseCellValue(cell, sharedStrings))
  }

  /** The last of cells whose reference is ref. */
  function LastCellWithRef(cells: seq<Node>, ref: string): (c: Option<Node>)
    ensures c.Some? <==> exists i :: 0 <= i < |cells| && CellRef(cells[i]) == Some(ref)
    ensures c.Some? ==> c.value in cells && CellRef(c.value) == Some(ref)
  {
    if cells == [] then None
    else if CellRef(cells[|cells| - 1]) == Some(ref) then Some(cells[|cells| - 1])
    else
      var c := LastCellWithRef(cells[..|cells| - 1], ref);
      assert forall i :: 0 <= i < |cells| - 1 ==> cells[..|cells| - 1][i] == cells[i];
      c
  }

  lemma AssignSnoc(cells: seq<Node>, cell: Node, sharedStrings: seq<string>)
    ensures Assign(cells + [cell], sharedStrings) ==
      match CellRef(cell)
      case None => Assign(cells, sharedStrings)
      case Some(ref) => Put(Assign(cells, sharedStrings), ref, ParseCellValue(cell, sharedStrings))
  {
    assert (cells + [cell])[..|cells|] == cells;
  }

  lemma ExtendByOne<T>(done: seq<T>, xs: seq<T>, j: nat)
    requires j < |xs|
    ensures done + xs[..j + 1] == (done + xs[..j]) + [xs[j]]
  {
  }

  lemma CellsOfRowsSnoc(rows: seq<Node>, row: Node)
    ensures CellsOfRows(rows + [row]) == CellsOfRows(rows) + QueryAll(row, "c")
  {
    assert (rows + [row])[..|rows|] == rows;
  }

  /** The sheet record of a worksheet part, given the shared-string part. */
  function Sheet(parse: XmlParse, sheetXml: Bytes, rawSharedStrings: Bytes): SheetData
  {
    if sheetXml == [] then []
    else
      var rows := FindAll(parse(sheetXml), "row");
      if rows == [] then [] else Assign(CellsOfRows(rows), Table(parse, rawSharedStrings))
  }

  /** Each reference maps to the decoded value of the last cell carrying it, and only references of cells are keys. */
  lemma {:induction false} AssignGet(cells: seq<Node>, sharedStrings: seq<string>, ref: string)
    ensures Get(Assign(cells, sharedStrings), ref) ==
      match LastCellWithRef(cells, ref)
      case None => None
      case Some(c) => Some(ParseCellValue(c, sharedStrings))
  {
    if cells != [] {
      var cell := cells[|cells| - 1];
      AssignGet(cells[..|cells| - 1], sharedStrings, ref);
      match CellRef(cell)
      case None =>
      case Some(r) =>
        GetPut(Assign(cells[..|cells| - 1], sharedStrings), r, ParseCellValue(cell, sharedStrings), ref);
    }
  }

  lemma {:induction false} AssignDistinct(cells: seq<Node>, sharedStrings: seq<string>)
    ensures DistinctKeys(Assign(cells, sharedStrings))
  {
    if cells != [] {
      AssignDistinct(cells[..|cells| - 1], sharedStrings);
      match CellRef(cells[|cells| - 1])
      case None =>
      case Some(r) =>
        PutKeepsKeysDistinct(Assign(cells[..|cells| - 1], sharedStrings), r, ParseCellValue(cells[|cells| - 1], sharedStrings));
    }
  }

  /**
   * The keys of a sheet are exactly the non-empty references of the cells
   * inside rows, and each maps to the decoded value of the last cell
   * carrying it, decoded against the one shared-string table of the workbook.
   */
  lemma SheetCellValues(parse: XmlParse, sheetXml: Bytes, rawSharedStrings: Bytes, ref: string)
    requires sheetXml != []
    ensures Get(Sheet(parse, sheetXml, rawSharedStrings), ref) ==
      match LastCellWithRef(CellsOfRows(FindAll(parse(sheetXml), "row")), ref)
      case None => None
      case Some(c) => Some(ParseCellValue(c, Table(parse, rawSharedStrings)))
  {
    var rows := FindAll(parse(sheetXml), "row");
    if rows != [] {
      AssignGet(CellsOfRows(rows), Table(parse, rawSharedStrings), ref);
    }
  }

  /** The inner loop of `parseSheet`: the cells of one row, assigned after those before it. */
  method AssignCells(before: SheetData, done: seq<Node>, cellEls: seq<Node>, sharedStrings: seq<string>) returns (result: SheetData)
    requires before == Assign(done, sharedStrings)
    ensures result == Assign(done + cellEls, sharedStrings)
  {
    result := before;
    assert done + cellEls[..0] == done;
    for j := 0 to |cellEls|
      invariant result == Assign(done + cellEls[..j], sharedStrings)
    {
      ExtendByOne(done, cellEls, j);
      AssignSnoc(done + cellEls[..j], cellEls[j], sharedStrings);
      var cellRef := GetAttribute(cellEls[j], "r");
      if cellRef.Some? && cellRef.value != "" {
        result := Put(result, cellRef.value, ParseCellValue(cellEls[j], sharedStrings));
      }
    }
    assert cellEls[..|cellEls|] == cellEls;
  }

  lemma CellsOfRowsExtend(rows: seq<Node>, k: nat)
    requires k < |rows|
    ensures CellsOfRows(rows[..k + 1]) == CellsOfRows(rows[..k]) + QueryAll(rows[k], "c")
  {
    assert rows[..k + 1] == rows[..k] + [rows[k]];
    CellsOfRowsSnoc(rows[..k], rows[k]);
  }

  /** `parseSheet(sheetXml, rawSharedStrings)`. */
  method ParseSheet(parse: XmlParse, sheetXml: Bytes, rawSharedStrings: Bytes) returns (result: SheetData)
    ensures result == Sheet(parse, sheetXml, rawSharedStrings)
    ensures sheetXml == [] ==> result == []
    ensures sheetXml != [] && FindAll(parse(sheetXml), "row") == [] ==> result == []
    ensures DistinctKeys(result)
  {
    if sheetXml == [] {
      return [];
    }
    var sharedStrings := ParseSharedStrings(parse, rawSharedStrings);
    var doc := parse(sheetXml);
    var domRows := FindAll(doc, "row");
    if domRows == [] {
      return [];
    }
    result := [];
    for k := 0 to |domRows|
      invariant result == Assign(CellsOfRows(domRows[..k]), sharedStrings)
    {
      var cellEls := QueryAll(domRows[k], "c");
      result := AssignCells(result, CellsOfRows(domRows[..k]), cellEls, sharedStrings);
      CellsOfRowsExtend(domRows, k);
    }
    assert domRows[..|domRows|] == domRows;
    AssignDistinct(CellsOfRows(domRows), sharedStrings);
  }
}

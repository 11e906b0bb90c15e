/**
 * The alternative worksheet decoder of `parser-sheet.ts`: one dense array
 * per `row` element, each as long as its own largest column index plus one,
 * with its own flat shared-string list and column reading.
 */
module DenseSheet {
  import opened Wrappers
  import opened Buffers
  import opened JsString
  import opened XmlTree
  import opened RefCoords
  import opened CellValues
  import opened SparseSheet

  /** The zero-based column of the leading A-Z letters of a reference; 0 when there are none. */
  function ColumnIndex(cellRef: string): int
  {
    var n := LetterRunLength(cellRef);
    if n == 0 then 0 else ColumnValue(cellRef[..n]) - 1
  }

  /** `getColumnIndex(cellRef)`: `/^([A-Z]+)/`, then the letters accumulated in base 26, minus one. */
  method GetColumnIndex(cellRef: string) returns (index: int)
    ensures index == ColumnIndex(cellRef)
    ensures index >= 0
  {
    var n := LetterRunLength(cellRef);
    if n == 0 {
      return 0;
    }
    var columnRef := cellRef[..n];
    var result := 0;
    for i := 0 to |columnRef|
      invariant result == ColumnValue(columnRef[..i])
    {
      assert columnRef[..i + 1][..i] == columnRef[..i];
      result := result * 26 + (columnRef[i] as int - 64);
    }
    assert columnRef[..|columnRef|] == columnRef;
    ColumnValuePositive(columnRef);
    return result - 1;
  }

  /** On a reference `refToCoords` accepts, the column index is its one-based column minus one. */
  lemma ColumnIndexOfCellRef(cellRef: string)
    requires IsCellRef(cellRef)
    ensures Decode(cellRef).Ok? && ColumnIndex(cellRef) == Decode(cellRef).value.col - 1
  {
    DecodeOkIff(cellRef);
    var k :| 1 <= k < |cellRef| && AllUpper(cellRef[..k]) && AllDigits(cellRef[k..]) && DecimalValue(cellRef[k..]) > 0;
    MatchRefSplit(cellRef, k);
    LetterRunEndsAtDigits(cellRef);
  }

  /** "A1" is column 0 and "AA1" column 26; a reference without leading letters also reads as column 0. */
  lemma ColumnIndexExamples()
    ensures ColumnIndex("A1") == 0 && ColumnIndex("AA1") == 26
    ensures ColumnIndex("1") == 0 && ColumnIndex("a1") == 0
  {
    assert LetterRunLength("1") == 0 && LetterRunLength("a1") == 0;
    assert LetterRunLength("A1"[1..]) == 0;
    assert LetterRunLength("A1") == 1;
    assert "A1"[..1] == "A";
    assert LetterRunLength("AA1"[2..]) == 0;
    assert LetterRunLength("AA1"[1..]) == 1;
    assert LetterRunLength("AA1") == 2;
    assert "AA1"[..2] == "AA" && "AA"[..1] == "A" && "A"[..0] == "";
  }

  /** The text of each node, in order. */
  function Texts(ts: seq<Node>): (texts: seq<string>)
    ensures |texts| == |ts|
    ensures forall i :: 0 <= i < |ts| ==> texts[i] == TextContent(ts[i])
  {
    if ts == [] then [] else Texts(ts[..|ts| - 1]) + [TextContent(ts[|ts| - 1])]
  }

  /**
   * `parseSharedStrings` of `parser-sheet.ts`: the text of every `t`
   * element of the document in document order, not grouped by `si`.
   */
  function FlatSharedStrings(parse: XmlParse, xml: Bytes): seq<string>
  {
    if xml == [] then [] else Texts(FindAll(parse(xml), "t"))
  }

  /** An entry of `cellData`: a column index and the decoded value. */
  datatype Entry = Entry(index: int, value: CellValue)

  /** The `cellData` of a row: one entry per cell with a non-empty `r`, in order. */
  function Entries(cells: seq<Node>, sharedStrings: seq<string>): (es: seq<Entry>)
    ensures forall i :: 0 <= i < |es| ==> es[i].index >= 0
  {
    if cells == [] then []
    else
      var before := Entries(cells[..|cells| - 1], sharedStrings);
      var cell := cells[|cells| - 1];
      match CellRef(cell)
      case None => before
      case Some(ref) =>
        assert LetterRunLength(ref) > 0 ==> ColumnValue(ref[..LetterRunLength(ref)]) >= 1 by {
          if LetterRunLength(ref) > 0 {
            ColumnValuePositive(ref[..LetterRunLength(ref)]);
          }
        }
        before + [Entry(ColumnIndex(ref), ParseCellValue(cell, sharedStrings))]
  }

  /** The largest index of the entries, 0 for none (`maxColumnIndex`). */
  function MaxIndex(es: seq<Entry>): (m: int)
    ensures m >= 0 && forall i :: 0 <= i < |es| ==> es[i].index <= m
    ensures m == 0 || exists i :: 0 <= i < |es| && es[i].index == m
  {
    if es == [] then 0
    else
      var m := MaxIndex(es[..|es| - 1]);
      assert forall i :: 0 <= i < |es| - 1 ==> es[..|es| - 1][i] == es[i];
      if es[|es| - 1].index > m then es[|es| - 1].index else m
  }

  /** The value written last at position p by es[0..n), null where none of them writes. */
  function RowValue(es: seq<Entry>, n: nat, p: int): CellValue
    requires n <= |es|
  {
    if n == 0 then Null
    else if es[n - 1].index == p then es[n - 1].value
    else RowValue(es, n - 1, p)
  }

  /** The dense row of one `row` element. */
  function DenseRow(cells: seq<Node>, sharedStrings: seq<string>): seq<CellValue>
  {
    var es := Entries(cells, sharedStrings);
    seq(MaxIndex(es) + 1, p requires 0 <= p <= MaxIndex(es) => RowValue(es, |es|, p))
  }

  /** The rows of a worksheet part as `parser-sheet.ts` reads them. */
  function DenseRows(rows: seq<Node>, sharedStrings: seq<string>): (r: seq<seq<CellValue>>)
    ensures |r| == |rows|
    ensures forall i :: 0 <= i < |rows| ==> r[i] == DenseRow(QueryAll(rows[i], "c"), sharedStrings)
  {
    if rows == [] then []
    else DenseRows(rows[..|rows| - 1], sharedStrings) + [DenseRow(QueryAll(rows[|rows| - 1], "c"), sharedStrings)]
  }

  function Sheet(parse: XmlParse, sheetXml: Bytes, rawSharedStrings: Bytes): seq<seq<CellValue>>
  {
    if sheetXml == [] then [] else DenseRows(FindAll(parse(sheetXml), "row"), FlatSharedStrings(parse, rawSharedStrings))
  }

  lemma EntriesSnoc(cells: seq<Node>, cell: Node, sharedStrings: seq<string>)
    ensures Entries(cells + [cell], sharedStrings) ==
      match CellRef(cell)
      case None => Entries(cells, sharedStrings)
      case Some(ref) => Entries(cells, sharedStrings) + [Entry(ColumnIndex(ref), ParseCellValue(cell, sharedStrings))]
  {
    assert (cells + [cell])[..|cells|] == cells;
  }

  /** Entries of the first j + 1 cells, from the entries of the first j. */
  lemma EntriesExtend(cells: seq<Node>, j: nat, sharedStrings: seq<string>)
    requires j < |cells|
    ensures Entries(cells[..j + 1], sharedStrings) ==
      match CellRef(cells[j])
      case None => Entries(cells[..j], sharedStrings)
      case Some(ref) => Entries(cells[..j], sharedStrings) + [Entry(ColumnIndex(ref), ParseCellValue(cells[j], sharedStrings))]
  {
    assert cells[..j + 1] == cells[..j] + [cells[j]];
    EntriesSnoc(cells[..j], cells[j], sharedStrings);
  }

  lemma MaxIndexSnoc(es: seq<Entry>, e: Entry)
    ensures MaxIndex(es + [e]) == if e.index > MaxIndex(es) then e.index else MaxIndex(es)
  {
    assert (es + [e])[..|es|] == es;
  }

  /** The first loop of the `domRows.map` callback: `cellData` and `maxColumnIndex`. */
  method CollectCells(cellEls: seq<Node>, sharedStrings: seq<string>) returns (cellData: seq<Entry>, maxColumnIndex: int)
    ensures cellData == Entries(cellEls, sharedStrings)
    ensures maxColumnIndex == MaxIndex(cellData)
  {
    maxColumnIndex := 0;
    cellData := [];
    for j := 0 to |cellEls|
      invariant cellData == Entries(cellEls[..j], sharedStrings)
      invariant maxColumnIndex == MaxIndex(cellData)
    {
      EntriesExtend(cellEls, j, sharedStrings);
      var cellRef := GetAttribute(cellEls[j], "r");
      if cellRef.Some? && cellRef.value != "" {
        var columnIndex := GetColumnIndex(cellRef.value);
        var value := ParseCellValue(cellEls[j], sharedStrings);
        MaxIndexSnoc(cellData, Entry(columnIndex, value));
        maxColumnIndex := if maxColumnIndex > columnIndex then maxColumnIndex else columnIndex;
        cellData := cellData + [Entry(columnIndex, value)];
      }
    }
    assert cellEls[..|cellEls|] == cellEls;
  }

  /** The callback of `domRows.map`: one `row` element to its dense array. */
  method ParseRow(rowEl: Node, sharedStrings: seq<string>) returns (row: seq<CellValue>)
    ensures row == DenseRow(QueryAll(rowEl, "c"), sharedStrings)
  {
    var cellData, maxColumnIndex := CollectCells(QueryAll(rowEl, "c"), sharedStrings);
    var arr := new CellValue[maxColumnIndex + 1](_ => Null);
    for j := 0 to |cellData|
      invariant forall p :: 0 <= p < arr.Length ==> arr[p] == RowValue(cellData, j, p)
    {
      arr[cellData[j].index] := cellData[j].value;
    }
    row := arr[..];
  }

  /** `parseSheet` of `parser-sheet.ts`. */
  method ParseSheet(parse: XmlParse, sheetXml: Bytes, rawSharedStrings: Bytes) returns (result: seq<seq<CellValue>>)
    ensures result == Sheet(parse, sheetXml, rawSharedStrings)
    ensures sheetXml == [] ==> result == []
    ensures sheetXml != [] ==> |result| == |FindAll(parse(sheetXml), "row")|
  {
    if sheetXml == [] {
      return [];
    }
    var sharedStrings := FlatSharedStrings(parse, rawSharedStrings);
    var doc := parse(sheetXml);
    var domRows := FindAll(doc, "row");
    if domRows == [] {
      return [];
    }
    result := [];
    for k := 0 to |domRows|
      invariant result == DenseRows(domRows[..k], sharedStrings)
    {
      var row := ParseRow(domRows[k], sharedStrings);
      ExtendByOne([], domRows, k);
      assert domRows[..k + 1][..k] == domRows[..k];
      result := result + [row];
    }
    assert domRows[..|domRows|] == domRows;
  }

  /** Each row is as long as its own largest column index plus one, and a row without addressed cells is [null]. */
  lemma RowShape(cells: seq<Node>, sharedStrings: seq<string>)
    ensures var es := Entries(cells, sharedStrings);
      |DenseRow(cells, sharedStrings)| == MaxIndex(es) + 1 >= 1
      && (es == [] ==> DenseRow(cells, sharedStrings) == [Null])
  {
  }

  /** Position p holds the value of the last cell whose column index is p. */
  lemma {:induction false} LastWriterWins(es: seq<Entry>, n: nat, i: nat)
    requires i < n <= |es|
    requires forall j :: i < j < n ==> es[j].index != es[i].index
    ensures RowValue(es, n, es[i].index) == es[i].value
  {
    if n - 1 != i {
      LastWriterWins(es, n - 1, i);
    }
  }

  /** Positions no cell addresses are null. */
  lemma {:induction false} UnsetIsNull(es: seq<Entry>, n: nat, p: int)
    requires n <= |es|
    requires forall j :: 0 <= j < n ==> es[j].index != p
    ensures RowValue(es, n, p) == Null
  {
    if n > 0 {
      UnsetIsNull(es, n - 1, p);
    }
  }

  /** The column indices the leading-gap example needs: C is index 2 and D is index 3. */
  lemma ColumnIndexOfC1D1()
    ensures ColumnIndex("C1") == 2 && ColumnIndex("D1") == 3
  {
    assert LetterRunLength("C1"[1..]) == 0;
    assert "C1"[..1] == "C" && "C"[..0] == "";
    assert LetterRunLength("D1"[1..]) == 0;
    assert "D1"[..1] == "D" && "D"[..0] == "";
  }

  lemma LeadingGapEntries(c1: Node, d1: Node, sharedStrings: seq<string>)
    requires CellRef(c1) == Some("C1") && CellRef(d1) == Some("D1")
    ensures Entries([c1, d1], sharedStrings)
      == [Entry(2, ParseCellValue(c1, sharedStrings)), Entry(3, ParseCellValue(d1, sharedStrings))]
  {
    ColumnIndexOfC1D1();
    EntriesSnoc([], c1, sharedStrings);
    EntriesSnoc([c1], d1, sharedStrings);
    assert [] + [c1] == [c1] && [c1] + [d1] == [c1, d1];
  }

  /** A row whose cells start at column C keeps the alignment: [null, null, C1, D1]. */
  lemma LeadingGapRow(c1: Node, d1: Node, sharedStrings: seq<string>)
    requires CellRef(c1) == Some("C1") && CellRef(d1) == Some("D1")
    ensures DenseRow([c1, d1], sharedStrings)
      == [Null, Null, ParseCellValue(c1, sharedStrings), ParseCellValue(d1, sharedStrings)]
  {
    LeadingGapEntries(c1, d1, sharedStrings);
    var es := [Entry(2, ParseCellValue(c1, sharedStrings)), Entry(3, ParseCellValue(d1, sharedStrings))];
    assert es[..1] == [es[0]] && es[..1][..0] == [];
    assert MaxIndex(es) == 3;
    var row := DenseRow([c1, d1], sharedStrings);
    assert |row| == 4;
    UnsetIsNull(es, 2, 0);
    UnsetIsNull(es, 2, 1);
    assert row[0] == Null && row[1] == Null;
    assert row[2] == RowValue(es, 2, 2) == es[0].value;
    assert row[3] == RowValue(es, 2, 3) == es[1].value;
  }
}

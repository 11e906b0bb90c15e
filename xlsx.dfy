/**
 * The `XlsxParser` facade of `xlsx-parser.ts`: it unpacks the archive on
 * first use, reads the sheet table once, and parses each worksheet on first
 * request, caching the result by sheet name.  Its asynchronous methods are
 * modelled as sequential method calls; decompression and XML parsing are
 * the oracles the parser is built with.
 */
module Xlsx {
  import opened Wrappers
  import opened Buffers
  import opened JsString
  import opened JsObject
  import opened XmlTree
  import opened CellValues
  import opened SparseSheet
  import opened SheetMatrix
  import opened Workbook
  import opened UnzipXlsx

  const NotFoundPrefix := "Sheet not found: "

  /** The `sheetNameOrIndex` argument: a sheet name or a position in `getAllSheets()`. */
  datatype SheetRequest = ByName(name: string) | ByIndex(index: int)

  /** What `getCellValue` returns: null (no such sheet), undefined (no such cell) or the cell's value. */
  datatype CellLookup = NoSheet | Absent | Found(value: CellValue)

  /** `this.sheets[name] = rels[rId]` for each workbook entry, in order; a missing relationship stores undefined. */
  function SheetTable(infos: seq<SheetInfo>, rels: WorkbookRels): Record<Option<string>>
  {
    if infos == [] then []
    else
      var info := infos[|infos| - 1];
      Put(SheetTable(infos[..|infos| - 1], rels), info.name, Get(rels, info.rId))
  }

  lemma SheetTableExtend(infos: seq<SheetInfo>, rels: WorkbookRels, k: nat)
    requires k < |infos|
    ensures SheetTable(infos[..k + 1], rels) == Put(SheetTable(infos[..k], rels), infos[k].name, Get(rels, infos[k].rId))
  {
    assert infos[..k + 1][..k] == infos[..k];
  }

  lemma SheetTableWhole(infos: seq<SheetInfo>, rels: WorkbookRels)
    ensures SheetTable(infos[..|infos|], rels) == SheetTable(infos, rels)
  {
    assert infos[..|infos|] == infos;
  }

  /** The last workbook entry carrying name. */
  function LastNamed(infos: seq<SheetInfo>, name: string): (r: Option<SheetInfo>)
    ensures r.Some? <==> exists i :: 0 <= i < |infos| && infos[i].name == name
    ensures r.Some? ==> r.value in infos && r.value.name == name
  {
    if infos == [] then None
    else if infos[|infos| - 1].name == name then Some(infos[|infos| - 1])
    else
      assert forall i :: 0 <= i < |infos| - 1 ==> infos[..|infos| - 1][i] == infos[i];
      LastNamed(infos[..|infos| - 1], name)
  }

  /** A name maps to the relationship target of its last workbook entry; a later duplicate overwrites an earlier one. */
  lemma {:induction false} SheetTableGet(infos: seq<SheetInfo>, rels: WorkbookRels, name: string)
    ensures Get(SheetTable(infos, rels), name) ==
      match LastNamed(infos, name)
      case None => None
      case Some(info) => Some(Get(rels, info.rId))
  {
    if infos != [] {
      var info := infos[|infos| - 1];
      SheetTableGet(infos[..|infos| - 1], rels, name);
      GetPut(SheetTable(infos[..|infos| - 1], rels), info.name, Get(rels, info.rId), name);
    }
  }

  /** The sheet names of the workbook entries, in order. */
  function Names(infos: seq<SheetInfo>): (ns: seq<string>)
    ensures |ns| == |infos| && forall i :: 0 <= i < |infos| ==> ns[i] == infos[i].name
  {
    if infos == [] then [] else Names(infos[..|infos| - 1]) + [infos[|infos| - 1].name]
  }

  /** The first occurrence of each string of xs, in order. */
  function FirstOccurrences(xs: seq<string>): (r: seq<string>)
    ensures forall x :: x in r <==> x in xs
  {
    if xs == [] then []
    else
      var r := FirstOccurrences(xs[..|xs| - 1]);
      assert xs == xs[..|xs| - 1] + [xs[|xs| - 1]];
      if xs[|xs| - 1] in r then r else r + [xs[|xs| - 1]]
  }

  predicate Distinct(xs: seq<string>)
  {
    forall i, j :: 0 <= i < j < |xs| ==> xs[i] != xs[j]
  }

  lemma {:induction false} FirstOccurrencesOfDistinct(xs: seq<string>)
    requires Distinct(xs)
    ensures FirstOccurrences(xs) == xs
  {
    if xs != [] {
      var init := xs[..|xs| - 1];
      assert Distinct(init) by {
        assert forall i :: 0 <= i < |init| ==> init[i] == xs[i];
      }
      FirstOccurrencesOfDistinct(init);
      assert xs[|xs| - 1] !in init by {
        assert forall i :: 0 <= i < |init| ==> init[i] == xs[i];
      }
      assert xs == init + [xs[|xs| - 1]];
    }
  }

  /** The table keeps its names in creation order: each name where it first appears in the workbook. */
  lemma {:induction false} SheetTableKeys(infos: seq<SheetInfo>, rels: WorkbookRels)
    ensures Keys(SheetTable(infos, rels)) == FirstOccurrences(Names(infos))
  {
    if infos != [] {
      var init := infos[..|infos| - 1];
      var info := infos[|infos| - 1];
      SheetTableKeys(init, rels);
      assert Names(infos) == Names(init) + [info.name];
      assert Names(infos)[..|Names(infos)| - 1] == Names(init);
    }
  }

  /**
   * The sheet names in workbook order, the order the library's own test
   * expects from `getAllSheets`: the creation order of the table.
   */
  function WorkbookSheetNames(infos: seq<SheetInfo>, rels: WorkbookRels): (names: seq<string>)
    ensures names == FirstOccurrences(Names(infos))
    ensures Distinct(Names(infos)) ==> names == Names(infos)
  {
    SheetTableKeys(infos, rels);
    if Distinct(Names(infos)) then
      FirstOccurrencesOfDistinct(Names(infos));
      Keys(SheetTable(infos, rels))
    else Keys(SheetTable(infos, rels))
  }

  /**
   * `Object.keys(this.sheets)` lists the names in workbook order as long as
   * no sheet is named like an array index.
   */
  lemma AllSheetsInWorkbookOrder(infos: seq<SheetInfo>, rels: WorkbookRels)
    requires forall i :: 0 <= i < |infos| ==> !IsArrayIndex(infos[i].name)
    ensures OwnKeys(SheetTable(infos, rels)) == WorkbookSheetNames(infos, rels)
  {
    var table := SheetTable(infos, rels);
    SheetTableKeys(infos, rels);
    forall i | 0 <= i < |table|
      ensures !IsArrayIndex(table[i].0)
    {
      assert Keys(table)[i] in Names(infos);
    }
    OwnKeysWithoutIndices(table);
  }

  /**
   * A workbook whose sheets are "Sheet1" and then "2024": `Object.keys`
   * lists "2024" first, so `readSheet(0)` reads the second sheet.
   */
  lemma NumericSheetNameListedFirst()
    ensures var infos := [SheetInfo("Sheet1", "1", "rId1"), SheetInfo("2024", "2", "rId2")];
      var rels := [("rId1", "xl/worksheets/sheet1.xml"), ("rId2", "xl/worksheets/sheet2.xml")];
      && OwnKeys(SheetTable(infos, rels)) == ["2024", "Sheet1"]
      && WorkbookSheetNames(infos, rels) == ["Sheet1", "2024"]
  {
    var a, b := SheetInfo("Sheet1", "1", "rId1"), SheetInfo("2024", "2", "rId2");
    var rels: WorkbookRels := [("rId1", "xl/worksheets/sheet1.xml"), ("rId2", "xl/worksheets/sheet2.xml")];
    TwoSheetTable(a, b, rels);
    assert !IsArrayIndex("Sheet1");
    YearIsArrayIndex();
    OwnKeysIndexAfterName("Sheet1", "2024", Get(rels, "rId1"), Get(rels, "rId2"));
    TwoNames(a, b, rels);
  }

  lemma TwoNames(a: SheetInfo, b: SheetInfo, rels: WorkbookRels)
    requires a.name != b.name
    ensures WorkbookSheetNames([a, b], rels) == [a.name, b.name]
  {
    assert Names([a, b]) == [a.name, b.name];
    assert Distinct(Names([a, b]));
  }

  /** The table of two differently named sheets holds both, in workbook order. */
  lemma TwoSheetTable(a: SheetInfo, b: SheetInfo, rels: WorkbookRels)
    requires a.name != b.name
    ensures SheetTable([a, b], rels) == [(a.name, Get(rels, a.rId)), (b.name, Get(rels, b.rId))]
  {
    assert [a, b][..1] == [a] && [a][..0] == [];
    assert SheetTable([a][..0], rels) == [];
    var first := SheetTable([a], rels);
    assert first == Put(SheetTable([a][..0], rels), a.name, Get(rels, a.rId));
    assert first == [(a.name, Get(rels, a.rId))];
    assert first[1..] == [];
    assert Put(first, b.name, Get(rels, b.rId)) == [first[0]] + Put(first[1..], b.name, Get(rels, b.rId));
  }

  /** "2024" is an array-index key, which `Object.keys` lists before "Sheet1". */
  lemma YearIsArrayIndex()
    ensures IsArrayIndex("2024")
  {
    assert "2024"[..3] == "202" && "202"[..2] == "20" && "20"[..1] == "2" && "2"[..0] == "";
    assert DecimalValue("2024") == 2024;
  }

  /** `Object.keys` of a name followed by an array index lists the index first. */
  lemma OwnKeysIndexAfterName<V>(name: string, index: string, u: V, v: V)
    requires !IsArrayIndex(name) && IsArrayIndex(index)
    ensures OwnKeys([(name, u), (index, v)]) == [index, name]
  {
    assert Keys([(name, u), (index, v)]) == [name, index];
    PairKeys(name, index);
    assert [index][1..] == [];
    assert SortIndices([index]) == [index];
  }

  lemma PairKeys(name: string, index: string)
    requires !IsArrayIndex(name) && IsArrayIndex(index)
    ensures ArrayIndexKeys([name, index]) == [index] && OtherKeys([name, index]) == [name]
  {
    assert [name, index][1..] == [index];
    assert [index][1..] == [];
    assert ArrayIndexKeys([index]) == [index] + ArrayIndexKeys([]);
    assert OtherKeys([index]) == [] + OtherKeys([]);
  }

  /** The sheet table `initialSheets` builds from the raw data. */
  function Table(parse: XmlParse, raw: RawData): Record<Option<string>>
  {
    SheetTable(Sheets(parse, raw.workbook), Rels(parse, raw.rels))
  }

  /** The worksheet path `getSheetPath(name)` returns, None where it throws (no entry, or no relationship). */
  function PathOf(parse: XmlParse, raw: RawData, name: string): Option<string>
  {
    var entry := Get(Table(parse, raw), name);
    if entry.Some? && entry.value.Some? && entry.value.value != "" then entry.value else None
  }

  /** A name has a path exactly when its last workbook entry's relationship exists. */
  lemma PathOfLastEntry(parse: XmlParse, raw: RawData, name: string)
    ensures var infos := Sheets(parse, raw.workbook);
      PathOf(parse, raw, name).Some? <==>
        && LastNamed(infos, name).Some?
        && Get(Rels(parse, raw.rels), LastNamed(infos, name).value.rId).Some?
        && Get(Rels(parse, raw.rels), LastNamed(infos, name).value.rId).value != ""
    ensures PathOf(parse, raw, name).Some? ==>
      PathOf(parse, raw, name) == Get(Rels(parse, raw.rels), LastNamed(Sheets(parse, raw.workbook), name).value.rId)
  {
    SheetTableGet(Sheets(parse, raw.workbook), Rels(parse, raw.rels), name);
  }

  /** The parsed data of the worksheet at path: `parseSheet(rawData.sheets[path], rawData.sharedStrings)`. */
  function DataAt(parse: XmlParse, raw: RawData, path: string): SheetData
  {
    Sheet(parse, EntryOr(raw.sheets, path), raw.sharedStrings)
  }

  /** The sheet name a request resolves to against `getAllSheets()`, None when it is undefined or empty. */
  function NameFor(names: seq<string>, req: SheetRequest): Option<string>
  {
    match req
    case ByName(n) => if n != "" then Some(n) else None
    case ByIndex(i) => if 0 <= i < |names| && names[i] != "" then Some(names[i]) else None
  }

  /** The message `readSheet` throws for a request that names no sheet. */
  function NotFound(req: SheetRequest): string
  {
    match req
    case ByName(n) => NotFoundPrefix + n
    case ByIndex(i) => NotFoundPrefix + IntToDecimal(i)
  }

  /** An index outside `getAllSheets()` names no sheet, and the message carries the index. */
  lemma IndexOutOfRange(names: seq<string>, i: int)
    requires i < 0 || i >= |names|
    ensures NameFor(names, ByIndex(i)).None?
    ensures NotFound(ByIndex(i)) == "Sheet not found: " + IntToDecimal(i)
  {
  }

  /** An index inside names a listed sheet. */
  lemma IndexInRange(names: seq<string>, i: int)
    requires 0 <= i < |names| && names[i] != ""
    ensures NameFor(names, ByIndex(i)) == Some(names[i])
  {
  }

  /** The cell lookup of `sheetsData[name][cellRef]`. */
  function LookupCell(data: SheetData, cellRef: string): CellLookup
  {
    match Get(data, cellRef)
    case None => Absent
    case Some(v) => Found(v)
  }

  /** Only references present in the sheet data are found, with their value. */
  lemma LookupCellMeaning(data: SheetData, cellRef: string)
    ensures LookupCell(data, cellRef).Absent? <==> cellRef !in Keys(data)
    ensures LookupCell(data, cellRef).Found? ==> Get(data, cellRef) == Some(LookupCell(data, cellRef).value)
    ensures !LookupCell(data, cellRef).NoSheet?
  {
  }

  class XlsxParser {
    /** The archive bytes (`await this.data`). */
    const data: Bytes
    const unzip: Unzip
    const parse: XmlParse

    var isInitialized: bool
    var parsedRawData: Option<RawData>
    /** sheet name to worksheet path (undefined where the relationship is missing). */
    var sheets: Record<Option<string>>
    /** sheet name to parsed worksheet. */
    var sheetsData: Record<SheetData>
    /** How many times the archive has been unpacked. */
    ghost var unzipCalls: nat

    /** What unpacking the archive gives: its entries, or the unpacking error. */
    ghost function Archive(): Result<Record<Bytes>>
    {
      unzip(data)
    }

    /** The raw data of the archive, when it unpacks. */
    ghost function Raw(): RawData
      requires Archive().Ok?
    {
      Classify(Archive().value)
    }

    /** The path a sheet name resolves to, None when the archive does not unpack or the name has none. */
    ghost function Path(name: string): Option<string>
    {
      if Archive().Err? then None else PathOf(parse, Raw(), name)
    }

    ghost function DataOf(name: string): SheetData
      requires Path(name).Some?
    {
      DataAt(parse, Raw(), Path(name).value)
    }

    /** The cache after `sheetDataCheck(name)` succeeds. */
    ghost function CacheWith(cache: Record<SheetData>, name: string): Record<SheetData>
      requires Path(name).Some?
    {
      if Get(cache, name).Some? then cache else Put(cache, name, DataOf(name))
    }

    /** The unpacked raw data and the sheet table agree with the archive, and every cached sheet is the parse of its own worksheet. */
    ghost predicate Valid()
      reads this
    {
      Unpacked() && CacheSound(sheetsData)
    }

    /**
     * The archive is unpacked again only while unpacking fails; once it
     * succeeds the raw data is kept.  The table is empty until it is read
     * and then holds the workbook's sheets.
     */
    ghost predicate Unpacked()
      reads this`unzipCalls, this`parsedRawData, this`isInitialized, this`sheets
    {
      && (Archive().Ok? ==> unzipCalls <= 1)
      && (parsedRawData.Some? <==> Archive().Ok? && unzipCalls == 1)
      && (parsedRawData.Some? ==> parsedRawData.value == Raw())
      && (isInitialized ==> parsedRawData.Some? && sheets == Table(parse, Raw()))
      && (!isInitialized ==> sheets == [])
    }

    /** Every cached sheet has a worksheet path and is the parse of that worksheet. */
    ghost predicate CacheSound(cache: Record<SheetData>)
    {
      forall name :: Get(cache, name).Some? ==> Path(name).Some? && Get(cache, name).value == DataOf(name)
    }

    /** Caching the parse of a sheet that has a path keeps the cache sound, and the sheet is then cached. */
    lemma CachePut(cache: Record<SheetData>, name: string, parsed: SheetData)
      requires CacheSound(cache) && Get(cache, name).None? && Path(name).Some? && parsed == DataOf(name)
      ensures CacheSound(Put(cache, name, parsed))
      ensures Put(cache, name, parsed) == CacheWith(cache, name)
      ensures Get(Put(cache, name, parsed), name) == Some(DataOf(name))
    {
      forall other | Get(Put(cache, name, parsed), other).Some?
        ensures Path(other).Some? && Get(Put(cache, name, parsed), other).value == DataOf(other)
      {
        GetPut(cache, name, parsed, other);
      }
      GetPut(cache, name, parsed, name);
    }

    /** `new XlsxParser(data)`. */
    constructor(data: Bytes, unzip: Unzip, parse: XmlParse)
      ensures this.data == data && this.unzip == unzip && this.parse == parse
      ensures !isInitialized && parsedRawData.None? && sheets == [] && sheetsData == [] && unzipCalls == 0
      ensures Valid()
    {
      this.data := data;
      this.unzip := unzip;
      this.parse := parse;
      isInitialized := false;
      parsedRawData := None;
      sheets := [];
      sheetsData := [];
      unzipCalls := 0;
    }

    /** `getRawData()`: unpack on first use, then reuse. */
    method GetRawData() returns (r: Result<RawData>)
      requires Valid()
      modifies this
      ensures Valid()
      ensures r == if Archive().Ok? then Ok(Raw()) else Err(Archive().error)
      ensures parsedRawData == if Archive().Ok? then Some(Raw()) else None
      ensures unzipCalls == if old(parsedRawData).Some? then old(unzipCalls) else old(unzipCalls) + 1
      ensures isInitialized == old(isInitialized) && sheets == old(sheets) && sheetsData == old(sheetsData)
    {
      if parsedRawData.None? {
        var unzipped := UnzipXlsx.UnzipXlsx(unzip, data);
        unzipCalls := unzipCalls + 1;
        if unzipped.Err? {
          return Err(unzipped.error);
        }
        parsedRawData := Some(unzipped.value);
      }
      return Ok(parsedRawData.value);
    }

    /** `initialSheets()`: read the sheet table once. */
    method InitialSheets() returns (r: Result<()>)
      requires Valid()
      modifies this
      ensures Valid()
      ensures old(isInitialized) ==> r == Ok(()) && unchanged(this)
      ensures r == if Archive().Ok? then Ok(()) else Err(Archive().error)
      ensures isInitialized == Archive().Ok?
      ensures unzipCalls == if old(parsedRawData).Some? then old(unzipCalls) else old(unzipCalls) + 1
      ensures sheetsData == old(sheetsData)
    {
      if isInitialized {
        return Ok(());
      }
      var rawData := GetRawData();
      if rawData.Err? {
        return Err(rawData.error);
      }
      var workbook := ParseWorkbook(parse, rawData.value.workbook);
      var rels := ParseWorkbookRels(parse, rawData.value.rels);
      ghost var calls := unzipCalls;
      assert workbook[..0] == [];
      for k := 0 to |workbook|
        invariant sheets == SheetTable(workbook[..k], rels)
        invariant !isInitialized && parsedRawData == Some(Raw()) && unzipCalls == calls && sheetsData == old(sheetsData)
      {
        SheetTableExtend(workbook, rels, k);
        var sheetInfo := workbook[k];
        sheets := Put(sheets, sheetInfo.name, Get(rels, sheetInfo.rId));
      }
      SheetTableWhole(workbook, rels);
      isInitialized := true;
      return Ok(());
    }

    /** `getSheetPath(name)`: the worksheet path of a sheet, or "Sheet not found". */
    method GetSheetPath(sheetName: string) returns (r: Result<string>)
      requires Valid()
      modifies this
      ensures Valid()
      ensures Archive().Err? ==> r == Err(Archive().error)
      ensures Archive().Ok? && Path(sheetName).None? ==> r == Err(NotFoundPrefix + sheetName)
      ensures Archive().Ok? && Path(sheetName).Some? ==> r == Ok(Path(sheetName).value)
      ensures isInitialized == Archive().Ok?
      ensures unzipCalls == if old(parsedRawData).Some? then old(unzipCalls) else old(unzipCalls) + 1
      ensures sheetsData == old(sheetsData)
    {
      var init := InitialSheets();
      if init.Err? {
        return Err(init.error);
      }
      var filePath := Get(sheets, sheetName);
      if filePath.None? || filePath.value.None? || filePath.value.value == "" {
        return Err(NotFoundPrefix + sheetName);
      }
      return Ok(filePath.value.value);
    }

    /** `getSheetRawData(name)`: the bytes of a sheet's worksheet part (empty when the archive lacks it). */
    method GetSheetRawData(sheetName: string) returns (r: Result<Bytes>)
      requires Valid()
      modifies this
      ensures Valid()
      ensures Archive().Err? ==> r == Err(Archive().error)
      ensures Archive().Ok? && Path(sheetName).None? ==> r == Err(NotFoundPrefix + sheetName)
      ensures Archive().Ok? && Path(sheetName).Some? ==> r == Ok(EntryOr(Raw().sheets, Path(sheetName).value))
      ensures isInitialized == Archive().Ok?
      ensures unzipCalls == if old(parsedRawData).Some? then old(unzipCalls) else old(unzipCalls) + 1
      ensures sheetsData == old(sheetsData)
    {
      var filePath := GetSheetPath(sheetName);
      if filePath.Err? {
        return Err(filePath.error);
      }
      var rowData := GetRawData();
      return Ok(EntryOr(rowData.value.sheets, filePath.value));
    }

    /** `sheetDataCheck(name)`: parse a sheet on first request and cache it by name. */
    method SheetDataCheck(sheetName: string) returns (r: Result<()>)
      requires Valid()
      modifies this
      ensures Valid()
      ensures Archive().Err? ==> r == Err(Archive().error) && sheetsData == old(sheetsData)
      ensures Archive().Ok? && Path(sheetName).None? ==> r == Err(NotFoundPrefix + sheetName) && sheetsData == old(sheetsData)
      ensures Archive().Ok? && Path(sheetName).Some? ==>
        r == Ok(()) && sheetsData == CacheWith(old(sheetsData), sheetName) && Get(sheetsData, sheetName) == Some(DataOf(sheetName))
      ensures isInitialized == (old(isInitialized) || (Archive().Ok? && Get(old(sheetsData), sheetName).None?))
      ensures unzipCalls == if old(parsedRawData).Some? then old(unzipCalls) else old(unzipCalls) + 1
    {
      var rawData := GetRawData();
      if rawData.Err? {
        return Err(rawData.error);
      }
      if Get(sheetsData, sheetName).None? {
        r := CacheSheet(sheetName, rawData.value.sharedStrings);
      } else {
        r := Ok(());
      }
    }

    /** `this.sheetsData[name] = parseSheet(await this.getSheetRawData(name), rawData.sharedStrings)`. */
    method CacheSheet(sheetName: string, sharedStrings: Bytes) returns (r: Result<()>)
      requires Valid() && Archive().Ok? && parsedRawData.Some?
      requires sharedStrings == Raw().sharedStrings && Get(sheetsData, sheetName).None?
      modifies this
      ensures Valid()
      ensures Path(sheetName).None? ==> r == Err(NotFoundPrefix + sheetName) && sheetsData == old(sheetsData)
      ensures Path(sheetName).Some? ==>
        r == Ok(()) && sheetsData == CacheWith(old(sheetsData), sheetName) && Get(sheetsData, sheetName) == Some(DataOf(sheetName))
      ensures isInitialized && unzipCalls == old(unzipCalls)
    {
      var sheetXml := GetSheetRawData(sheetName);
      if sheetXml.Err? {
        return Err(sheetXml.error);
      }
      var parsed := ParseSheet(parse, sheetXml.value, sharedStrings);
      CachePut(sheetsData, sheetName, parsed);
      sheetsData := Put(sheetsData, sheetName, parsed);
      return Ok(());
    }

    /**
     * `getAllSheets()`, listing the sheet table in creation order, which is
     * workbook order.  `Object.keys` would list names that are array indices
     * first (NumericSheetNameListedFirst); this lists them where the workbook
     * has them.
     */
    method GetAllSheets() returns (r: Result<seq<string>>)
      requires Valid()
      modifies this
      ensures Valid()
      ensures r == if Archive().Ok? then Ok(AllSheets()) else Err(Archive().error)
      ensures isInitialized == Archive().Ok?
      ensures unzipCalls == if old(parsedRawData).Some? then old(unzipCalls) else old(unzipCalls) + 1
      ensures sheetsData == old(sheetsData)
    {
      var init := InitialSheets();
      if init.Err? {
        return Err(init.error);
      }
      return Ok(Keys(sheets));
    }

    /** The sheets `getAllSheets()` lists, once the archive unpacks: the workbook's names in order. */
    ghost function AllSheets(): seq<string>
      requires Archive().Ok?
    {
      WorkbookSheetNames(Sheets(parse, Raw().workbook), Rels(parse, Raw().rels))
    }

    /**
     * `readSheet(sheetNameOrIndex)`: the matrix of the named (or listed)
     * sheet.  It throws "Sheet not found: <request>" for an empty name or an
     * index outside `getAllSheets()`, "Sheet not found: <name>" for a sheet
     * without a worksheet path, the refToCoords error for a bad key, and the
     * unpacking error.  The parse is cached, so only the first request of a
     * sheet parses it.
     */
    method ReadSheet(req: SheetRequest) returns (r: Result<array2<CellValue>>)
      requires Valid()
      modifies this
      ensures Valid()
      ensures req == ByName("") ==> r == Err(NotFoundPrefix) && unchanged(this)
      ensures req.ByIndex? && Archive().Err? ==> r == Err(Archive().error) && sheetsData == old(sheetsData)
      ensures req.ByIndex? && Archive().Ok? && NameFor(AllSheets(), req).None? ==>
        r == Err(NotFound(req)) && sheetsData == old(sheetsData)
      ensures req.ByName? && req.name != "" && Archive().Err? ==> r == Err(Archive().error) && sheetsData == old(sheetsData)
      ensures req.ByIndex? ==> isInitialized == Archive().Ok?
      ensures req.ByName? && req.name != "" ==>
        isInitialized == (old(isInitialized) || (Archive().Ok? && Get(old(sheetsData), req.name).None?))
      ensures Archive().Ok? && NameFor(AllSheets(), req).Some? ==> var name := NameFor(AllSheets(), req).value;
        && (Path(name).None? ==> r == Err(NotFoundPrefix + name) && sheetsData == old(sheetsData))
        && (Path(name).Some? ==>
             sheetsData == CacheWith(old(sheetsData), name) && Converts(r, DataOf(name)) && (r.Ok? ==> fresh(r.value)))
      ensures old(parsedRawData).Some? ==> unzipCalls == old(unzipCalls)
      ensures unzipCalls <= old(unzipCalls) + 1
    {
      var names := [];
      if req.ByIndex? {
        var all := GetAllSheets();
        if all.Err? {
          return Err(all.error);
        }
        names := all.value;
      }
      var sheetName := NameFor(names, req);
      if sheetName.None? {
        return Err(NotFound(req));
      }
      r := ReadNamedSheet(sheetName.value);
    }

    /** The rest of `readSheet` once the name is known: `sheetDataCheck(name)`, then `sheetDataToMatrix`. */
    method ReadNamedSheet(sheetName: string) returns (r: Result<array2<CellValue>>)
      requires Valid()
      modifies this
      ensures Valid()
      ensures Archive().Err? ==> r == Err(Archive().error) && sheetsData == old(sheetsData)
      ensures Archive().Ok? && Path(sheetName).None? ==> r == Err(NotFoundPrefix + sheetName) && sheetsData == old(sheetsData)
      ensures Archive().Ok? && Path(sheetName).Some? ==>
        sheetsData == CacheWith(old(sheetsData), sheetName) && Converts(r, DataOf(sheetName)) && (r.Ok? ==> fresh(r.value))
      ensures isInitialized == (old(isInitialized) || (Archive().Ok? && Get(old(sheetsData), sheetName).None?))
      ensures old(parsedRawData).Some? ==> unzipCalls == old(unzipCalls)
      ensures unzipCalls <= old(unzipCalls) + 1
    {
      var check := SheetDataCheck(sheetName);
      if check.Err? {
        return Err(check.error);
      }
      var sheetData := Get(sheetsData, sheetName).value;
      r := SheetDataToMatrix(sheetData);
      assert Converts(r, sheetData);
    }

    /**
     * `getCellValue(cellRef, sheetNameOrIndex = 0)`: null when the request
     * names no sheet, undefined for a reference the sheet does not hold,
     * otherwise the cell's value; it throws "Sheet not found: <name>" for a
     * named sheet without a worksheet path, and the unpacking error.
     */
    method GetCellValue(cellRef: string, req: SheetRequest := ByIndex(0)) returns (r: Result<CellLookup>)
      requires Valid()
      modifies this
      ensures Valid()
      ensures Archive().Err? ==> r == Err(Archive().error) && sheetsData == old(sheetsData)
      ensures Archive().Ok? && NameFor(AllSheets(), req).None? ==> r == Ok(NoSheet) && sheetsData == old(sheetsData)
      ensures Archive().Ok? && NameFor(AllSheets(), req).Some? ==> var name := NameFor(AllSheets(), req).value;
        && (Path(name).None? ==> r == Err(NotFoundPrefix + name) && sheetsData == old(sheetsData))
        && (Path(name).Some? ==> r == Ok(LookupCell(DataOf(name), cellRef)) && sheetsData == CacheWith(old(sheetsData), name))
      ensures isInitialized == Archive().Ok?
      ensures old(parsedRawData).Some? ==> unzipCalls == old(unzipCalls)
      ensures unzipCalls <= old(unzipCalls) + 1
    {
      var all := GetAllSheets();
      if all.Err? {
        return Err(all.error);
      }
      var sheetName := NameFor(all.value, req);
      if sheetName.None? {
        return Ok(NoSheet);
      }
      r := NamedCellValue(cellRef, sheetName.value);
    }

    /** The rest of `getCellValue` once the name is known: `sheetDataCheck(name)`, then `sheetsData[name][cellRef]`. */
    method NamedCellValue(cellRef: string, sheetName: string) returns (r: Result<CellLookup>)
      requires Valid() && Archive().Ok?
      modifies this
      ensures Valid()
      ensures Path(sheetName).None? ==> r == Err(NotFoundPrefix + sheetName) && sheetsData == old(sheetsData)
      ensures Path(sheetName).Some? ==>
        r == Ok(LookupCell(DataOf(sheetName), cellRef)) && sheetsData == CacheWith(old(sheetsData), sheetName)
      ensures isInitialized == (old(isInitialized) || Get(old(sheetsData), sheetName).None?)
      ensures old(parsedRawData).Some? ==> unzipCalls == old(unzipCalls)
      ensures unzipCalls <= old(unzipCalls) + 1
    {
      var check := SheetDataCheck(sheetName);
      if check.Err? {
        return Err(check.error);
      }
      return Ok(LookupCell(Get(sheetsData, sheetName).value, cellRef));
    }
  }

  /** `newXlsxParser(data)`. */
  method NewXlsxParser(data: Bytes, unzip: Unzip, parse: XmlParse) returns (p: XlsxParser)
    ensures fresh(p) && p.Valid()
    ensures p.data == data && p.unzip == unzip && p.parse == parse
    ensures !p.isInitialized && p.parsedRawData.None? && p.sheets == [] && p.sheetsData == [] && p.unzipCalls == 0
  {
    p := new XlsxParser(data, unzip, parse);
  }
}

/**
 * `unzipXlsx` of `unzip-xlsx.ts`: the archive's path-to-bytes record is
 * sorted into the worksheet parts and four fixed parts.  Decompression
 * itself is an oracle that yields the record or fails.
 */
module UnzipXlsx {
  import opened Wrappers
  import opened Buffers
  import opened JsString
  import opened JsObject

  /** Decompression of a zip archive into its entries by path, or the error it rejects with. */
  type Unzip = Bytes -> Result<Record<Bytes>>

  /** `XlsxRawData`. */
  datatype RawData = RawData(styles: Bytes, workbook: Bytes, sharedStrings: Bytes, rels: Bytes, sheets: Record<Bytes>)

  const SheetPrefix := "xl/worksheets/sheet"
  const StylesPath := "xl/styles.xml"
  const WorkbookPath := "xl/workbook.xml"
  const SharedStringsPath := "xl/sharedStrings.xml"
  const RelsPath := "xl/_rels/workbook.xml.rels"

  /** `files[path] || new Uint8Array()`. */
  function EntryOr(files: Record<Bytes>, path: string): Bytes
  {
    match Get(files, path)
    case None => []
    case Some(bytes) => bytes
  }

  /** `sheets[key] = value` for each of keys under the worksheet prefix, in order. */
  function SheetEntries(files: Record<Bytes>, keys: seq<string>): Record<Bytes>
  {
    if keys == [] then []
    else
      var before := SheetEntries(files, keys[..|keys| - 1]);
      var key := keys[|keys| - 1];
      match Get(files, key)
      case Some(value) => if StartsWith(key, SheetPrefix) then Put(before, key, value) else before
      case None => before
  }

  /** The raw data of an archive whose entries are files. */
  function Classify(files: Record<Bytes>): RawData
  {
    RawData(EntryOr(files, StylesPath), EntryOr(files, WorkbookPath), EntryOr(files, SharedStringsPath),
            EntryOr(files, RelsPath), SheetEntries(files, OwnKeys(files)))
  }

  lemma SheetEntriesSnoc(files: Record<Bytes>, keys: seq<string>, key: string)
    requires key in Keys(files)
    ensures SheetEntries(files, keys + [key]) ==
      if StartsWith(key, SheetPrefix) then Put(SheetEntries(files, keys), key, Get(files, key).value)
      else SheetEntries(files, keys)
  {
    assert (keys + [key])[..|keys|] == keys;
  }

  lemma SheetEntriesExtend(files: Record<Bytes>, keys: seq<string>, k: nat)
    requires k < |keys| && keys[k] in Keys(files)
    ensures SheetEntries(files, keys[..k + 1]) ==
      if StartsWith(keys[k], SheetPrefix) then Put(SheetEntries(files, keys[..k]), keys[k], Get(files, keys[k]).value)
      else SheetEntries(files, keys[..k])
  {
    assert keys[..k + 1] == keys[..k] + [keys[k]];
    SheetEntriesSnoc(files, keys[..k], keys[k]);
  }

  /** The loop of `unzipXlsx` over `Object.entries(files)`, whose keys are entries. */
  method CollectSheets(files: Record<Bytes>, entries: seq<string>) returns (sheets: Record<Bytes>)
    requires forall k :: k in entries ==> k in Keys(files)
    ensures sheets == SheetEntries(files, entries)
  {
    sheets := [];
    for k := 0 to |entries|
      invariant sheets == SheetEntries(files, entries[..k])
    {
      var key := entries[k];
      SheetEntriesExtend(files, entries, k);
      if StartsWith(key, SheetPrefix) {
        sheets := Put(sheets, key, Get(files, key).value);
      }
    }
    assert entries[..|entries|] == entries;
  }

  /** `await unzipXlsx(buffer)`; an `ArrayBuffer` and a `Uint8Array` carry the same bytes. */
  method UnzipXlsx(unzip: Unzip, buffer: Bytes) returns (r: Result<RawData>)
    ensures unzip(buffer).Err? ==> r == Err(unzip(buffer).error)
    ensures unzip(buffer).Ok? ==> r == Ok(Classify(unzip(buffer).value))
  {
    var unzipped := unzip(buffer);
    if unzipped.Err? {
      return Err(unzipped.error);
    }
    var files := unzipped.value;
    var sheets := CollectSheets(files, OwnKeys(files));
    return Ok(RawData(EntryOr(files, StylesPath), EntryOr(files, WorkbookPath), EntryOr(files, SharedStringsPath),
                      EntryOr(files, RelsPath), sheets));
  }

  lemma {:induction false} SheetEntriesGet(files: Record<Bytes>, keys: seq<string>, path: string)
    ensures Get(SheetEntries(files, keys), path) ==
      if path in keys && StartsWith(path, SheetPrefix) then Get(files, path) else None
  {
    if keys != [] {
      var before := keys[..|keys| - 1];
      var key := keys[|keys| - 1];
      assert keys == before + [key];
      SheetEntriesGet(files, before, path);
      match Get(files, key)
      case Some(value) =>
        if StartsWith(key, SheetPrefix) {
          GetPut(SheetEntries(files, before), key, value, path);
        }
      case None =>
    }
  }

  lemma {:induction false} SheetEntriesDistinct(files: Record<Bytes>, keys: seq<string>)
    ensures DistinctKeys(SheetEntries(files, keys))
  {
    if keys != [] {
      var key := keys[|keys| - 1];
      SheetEntriesDistinct(files, keys[..|keys| - 1]);
      match Get(files, key)
      case Some(value) =>
        if StartsWith(key, SheetPrefix) {
          PutKeepsKeysDistinct(SheetEntries(files, keys[..|keys| - 1]), key, value);
        }
      case None =>
    }
  }

  /**
   * The worksheet record holds exactly the archive entries under
   * "xl/worksheets/sheet", with their bytes unchanged, each once.
   */
  lemma ClassifySheets(files: Record<Bytes>, path: string)
    ensures Get(Classify(files).sheets, path) == if StartsWith(path, SheetPrefix) then Get(files, path) else None
    ensures path in Keys(Classify(files).sheets) <==> path in Keys(files) && StartsWith(path, SheetPrefix)
    ensures DistinctKeys(Classify(files).sheets)
  {
    SheetEntriesGet(files, OwnKeys(files), path);
    SheetEntriesDistinct(files, OwnKeys(files));
  }

  /** The four fixed parts come from their fixed paths, and an absent one is empty. */
  lemma ClassifyFixedParts(files: Record<Bytes>)
    ensures var raw := Classify(files);
      && (StylesPath in Keys(files) ==> Some(raw.styles) == Get(files, StylesPath))
      && (WorkbookPath in Keys(files) ==> Some(raw.workbook) == Get(files, WorkbookPath))
      && (SharedStringsPath in Keys(files) ==> Some(raw.sharedStrings) == Get(files, SharedStringsPath))
      && (RelsPath in Keys(files) ==> Some(raw.rels) == Get(files, RelsPath))
      && (StylesPath !in Keys(files) ==> raw.styles == [])
      && (WorkbookPath !in Keys(files) ==> raw.workbook == [])
      && (SharedStringsPath !in Keys(files) ==> raw.sharedStrings == [])
      && (RelsPath !in Keys(files) ==> raw.rels == [])
  {
  }
}

# Sheafy core, modelled in Dafny

Sheafy reads two tabular formats into rows of cell values:

- **Delimited text (CSV).** Raw bytes are decoded by sniffing a byte order mark and then trying a fixed list of charsets in order. `CsvParser` scans the text character by character. It handles quoting and escaping, chooses between CRLF and LF line ends, can skip blank rows and trim fields, and can split off a header row.
- **Spreadsheet archives (XLSX).** An archive is unpacked into its parts: the workbook, the workbook relationships, the shared-string table and the worksheets. Each part is read as XML:
  - a worksheet becomes a record from cell reference to value (`parseSheet`) and then a dense matrix (`sheetDataToMatrix`);
  - `XlsxParser` ties the parts together. It keeps an instance cache of the unpacked archive, of the sheet-name to part-path table, and of each decoded sheet.

Each module follows one source file:

| module | source |
|---|---|
| `RefCoords` | `src/utils/ref-coords.ts`: cell references to one-based coordinates and back |
| `Csv` | `src/csv/csv-parser.ts`: the `CsvParser` class, `newCsvParser`, `parseCSV` |
| `CsvProofs` | the shape of the rows `CsvParser` emits, and the reading back of RFC 4180 quoted text |
| `TextDecoding` | `src/csv/smart-decode-text.ts`, and `detectAndDecodeText` of `src/csv/csv-parser.ts` |
| `CellValues` | `src/xlsx/parse-cell-value.ts` |
| `SharedStrings` | `src/xlsx/parse-shared-strings.ts` |
| `SparseSheet` | `src/xlsx/parse-sheet.ts` |
| `SheetMatrix` | `src/xlsx/sheet-data-to-matrix.ts` |
| `Workbook` | `src/xlsx/parse-workbook.ts` |
| `UnzipXlsx` | `src/xlsx/unzip-xlsx.ts` |
| `DenseSheet` | `src/xlsx/parser-sheet.ts`, the alternative dense-row sheet reader |
| `Xlsx` | `src/xlsx/xlsx-parser.ts`: the `XlsxParser` class and `newXlsxParser` |

Four support modules model JavaScript and the DOM:

- `JsObject`: a plain object used as a dictionary is an insertion-ordered association list. Assignment to a new key appends it. `Object.keys` lists array-index keys ("0", "1", … "4294967294") first, in ascending numeric order, and then the other keys in creation order.
- `JsString`: ECMAScript white space, `trim`, and `Number.parseInt(_, 10)` as leading decimal digits.
- `XmlTree`: a parsed XML document as a tree. `find` and `querySelectorAll` are the descendant elements with a given name, in document order. `textContent` is the concatenated text of the descendants.
- `Wrappers` and `Buffers`: `Option`, `Result`, and bytes.

The foreign parts are parameters:

- the zip library (`Unzip`, from bytes to a path→bytes record or an error);
- the XML parser (`XmlParse`, from bytes to a tree);
- the strict and the lenient `TextDecoder` (`StrictDecoder` and `LenientDecoder`).

A thrown `Error` is an `Err` carrying its message.

The classes keep the source's form. `Csv.CsvParser` holds the text and the resolved options. `Xlsx.XlsxParser` holds these fields, which its methods update:

- `isInitialized`;
- `parsedRawData`;
- `sheets`;
- `sheetsData`;
- a ghost counter of unzip calls.

Each method is proved against the functions on its fields. `Valid()` is the instance invariant:

- the cached raw data is what the archive unpacks to;
- `sheets` is the table built from the workbook and its relationships once `isInitialized` is set, and empty before;
- every cached sheet is the `parseSheet` result of the part its name points to;
- once unpacking succeeds the archive is not unpacked again; while it fails, every call retries it.

Loops stay loops, proved with invariants: the CSV scan, the column accumulators of `refToCoords` and `coordsToRef`, the charset attempts, and the record-filling loops of the XLSX readers. `sheetDataToMatrix` fills an `array2` in place.

## Model

| member | source | states |
|---|---|---|
| RefCoords.LetterRunLength | src/utils/ref-coords.ts:15 | the length of the leading `[A-Z]+` run: those characters are upper-case letters and the next one is not |
| RefCoords.MatchRefMeaning | src/utils/ref-coords.ts:15-18 | the regex `^([A-Z]+)(\d+)$` matches exactly when the reference is a non-empty letter run followed by a non-empty digit run, and the groups are those runs |
| RefCoords.DecodeOkIff | src/utils/ref-coords.ts:14-38 | `refToCoords` succeeds exactly on references of that shape whose row number is positive; otherwise it fails with "Invalid cell reference: " followed by the reference |
| RefCoords.RefToCoords | src/utils/ref-coords.ts:14-38 | the loop computes the decoded coordinates, and on success row ≥ 1 and column ≥ 1 |
| RefCoords.ColumnValuePositive | src/utils/ref-coords.ts:27-32 | a non-empty letter run has a column value of at least 1 |
| RefCoords.CoordsToRef | src/utils/ref-coords.ts:49-69 | the while loop computes the encoding; it fails exactly when row ≤ 0 or col ≤ 0 |
| RefCoords.LettersValue | src/utils/ref-coords.ts:60-66 | the letters written for n ≥ 1 are non-empty upper-case letters whose column value is n |
| RefCoords.LettersOfColumnValue | src/utils/ref-coords.ts:27-66 | writing the column value of any letter run gives back that run |
| RefCoords.EncodeThenDecode | test/utils/ref-coords.test.ts:184-228 | `refToCoords(coordsToRef(c)) == c` for all positive coordinates |
| RefCoords.DecodeThenEncode | test/utils/ref-coords.test.ts:184-228 | `coordsToRef(refToCoords(ref)) == ref` for every reference without leading zeros in the row |
| RefCoords.CanonicalRefInjective | src/utils/ref-coords.ts:14-38 | two references without leading zeros that decode alike are equal |
| RefCoords.ColumnExamples | test/utils/ref-coords.test.ts:6-47 | A=1, Z=26, AA=27, AZ=52, ZZ=702, AAA=703, ABC=731, XFD=16384, and 16384 is written XFD |
| RefCoords.MaxRefExample | src/utils/ref-coords.ts:14-38 | "XFD1048576" decodes to row 1048576, column 16384 |
| RefCoords.LeadingZeroExample | src/utils/ref-coords.ts:22 | "A01" decodes to (1, 1), which encodes back as "A1" |
| RefCoords.RejectedExamples | test/utils/ref-coords.test.ts:61-92 | "", "123", "ABC", "a1", "Aa1", "A1B", "A-1" and "A0" are rejected, and "A0" with the message "Invalid cell reference: A0" |
| Csv.ResolveMeaning | src/csv/csv-parser.ts:21-33 | each of the eight options that is absent takes its default: delimiter ",", quote "\"", escape "\"", newline "\n", skipEmptyLines true, trimFields false, headers false, encoding "utf-8"; each option that is given is kept as given |
| Csv.Step | src/csv/csv-parser.ts:53-81 | one iteration of the scan loop always advances the index |
| Csv.Run | src/csv/csv-parser.ts:53-81 | the loop runs until the index reaches the end of the text |
| Csv.DataMeaning | src/csv/csv-parser.ts:35-44 | a header row is split off exactly when `headers` is set and there is a row; the headers followed by the rows are exactly the scanned rows |
| Csv.CsvParser.constructor | src/csv/csv-parser.ts:21-33 | the parser keeps the text and the options with their defaults filled in |
| Csv.CsvParser.ParseText | src/csv/csv-parser.ts:46-86 | the while loop over the text yields the rows of the scanner specification |
| Csv.CsvParser.Parse | src/csv/csv-parser.ts:35-44 | the result splits off the header row exactly when `headers` is set and a row exists; nothing is lost or reordered |
| Csv.NewCsvParser | src/csv/csv-parser.ts:177-182 | a fresh parser over the text and the resolved options |
| Csv.ParseCsv | src/csv/csv-parser.ts:248-251 | `parseCSV` is `parse` of a new parser; there is a header exactly when `headers` is set and a row exists |
| CsvProofs.ProcessFieldTrimmed | src/csv/csv-parser.ts:172-174 | with trimFields, a processed field has no white space at either end |
| CsvProofs.StepKeepsGood | src/csv/csv-parser.ts:53-81 | one scan step keeps every emitted row well formed |
| CsvProofs.RunKeepsGood | src/csv/csv-parser.ts:53-84 | the whole scan keeps every emitted row well formed |
| CsvProofs.FinalizeGood | src/csv/csv-parser.ts:107-118 | a pending field or row is pushed as a last row |
| CsvProofs.RowsAreGood | src/csv/csv-parser.ts:46-131 | every emitted row has at least one field; with skipEmptyLines it is not all blank; with trimFields every field is trimmed |
| CsvProofs.DataIsGood | src/csv/csv-parser.ts:35-44 | the headers and every data row of the parse result are well formed in the same sense |
| CsvProofs.ProcessTrimmed | src/csv/csv-parser.ts:172-174 | processing a field that is already trimmed, or processing without trimFields, leaves the field unchanged |
| CsvProofs.StepPlainChar | src/csv/csv-parser.ts:77-80 | outside quotes, a character that is neither the quote option, the delimiter option nor a newline is appended to the field |
| CsvProofs.StepOpenQuote | src/csv/csv-parser.ts:64-66 | outside quotes, the quote enters quoted mode for any pending field, also in the middle of a field, and keeps what the field holds |
| CsvProofs.StepQuotedChar | src/csv/csv-parser.ts:165-169 | inside quotes, any character other than the quote, including a newline, is appended, unless it is the escape and the quote follows it; stated for any escape option |
| CsvProofs.StepDoubledQuote | src/csv/csv-parser.ts:149-155 | inside quotes, two quotes in a row append one quote and skip two characters, whatever the escape option is |
| CsvProofs.StepEscapedQuote | src/csv/csv-parser.ts:141-147 | inside quotes, the escape followed by the quote appends one quote and skips two characters, also when the escape differs from the quote |
| CsvProofs.StepCloseQuote | src/csv/csv-parser.ts:157-163 | inside quotes, a quote not followed by a quote leaves quoted mode and adds nothing, whatever the escape option is |
| CsvProofs.StepDelimiter | src/csv/csv-parser.ts:67-70 | outside quotes, the delimiter (when it is not also the quote) pushes the pending field, trimmed under trimFields and as it is otherwise, for any pending field, and starts an empty one |
| CsvProofs.StepDelimiterTrimsField | test/csv/csv-parser.test.ts:73-83 | under trimFields, the pending field " age " is pushed as "age" at the delimiter |
| CsvProofs.StepLineEnd | src/csv/csv-parser.ts:71-105 | outside quotes, "\n", "\r\n", or a lone "\r" not followed by "\n" ends the row; the row with the pending field, trimmed under trimFields, is emitted when it is not skipped; "\r\n" is consumed as one line end |
| CsvProofs.StepSkippedLine | src/csv/csv-parser.ts:71-92 | with skipEmptyLines, a line end after a row whose fields are all blank emits nothing and starts a new row |
| CsvProofs.RoundTrip | src/csv/csv-parser.ts:46-174 | rows written with RFC 4180 quoting and a line end ("\n", "\r\n" or "\r") after each row scan back to exactly those rows, so a trailing newline adds no row |
| CsvProofs.RoundTripWithoutFinalLineEnd | src/csv/csv-parser.ts:107-118 | without a line end after the last row, that row is still emitted by `finalizeLastRow` |
| TextDecoding.DetectBom | src/csv/smart-decode-text.ts:5-16 | the result is "utf-8" exactly for EF BB BF, "utf-16be" exactly for FE FF, "utf-16le" exactly for FF FE, and null otherwise |
| TextDecoding.ShortBufferHasNoBom | src/csv/smart-decode-text.ts:5-16 | a buffer shorter than two bytes has no byte order mark |
| TextDecoding.TryDecode | src/csv/smart-decode-text.ts:18-29 | a text is accepted exactly when the strict decoder succeeds and its output has no U+FFFD |
| TextDecoding.FirstAcceptedMeaning | src/csv/smart-decode-text.ts:53-68 | trying charsets in order finds nothing exactly when every attempt fails; otherwise it returns the first accepted text, and all earlier attempts failed |
| TextDecoding.FirstAcceptedAppend | src/csv/smart-decode-text.ts:37-68 | consecutive groups of attempts behave as one list in the same order |
| TextDecoding.FirstAcceptedIsClean | src/csv/smart-decode-text.ts:25 | an accepted text never contains U+FFFD |
| TextDecoding.SmartOrderShape | src/csv/smart-decode-text.ts:37-68 | the attempts are the BOM charset when there is one, then utf-8, gbk, gb2312, big5, windows-1252, iso-8859-1 |
| TextDecoding.SmartDecodeText | src/csv/smart-decode-text.ts:34-72 | the method, with its early returns, computes the first accepted text in that order, or else the lenient utf-8 decode |
| TextDecoding.DetectAndDecodeText | src/csv/csv-parser.ts:218-246 | the same order without the BOM step, then the lenient utf-8 decode |
| TextDecoding.TryInOrder | src/csv/smart-decode-text.ts:53-68 | one loop over a group of charsets returns the first accepted text, or reports that the whole prefix tried so far failed |
| TextDecoding.SmartDecodeFirstAccepted | src/csv/smart-decode-text.ts:37-71 | the result is the lenient decode when every attempt fails; otherwise it is the first accepted attempt |
| TextDecoding.NoneAccepted | src/csv/smart-decode-text.ts:53-68 | when every attempt fails, nothing is accepted |
| TextDecoding.BomFallsThrough | src/csv/smart-decode-text.ts:39-47 | without a byte order mark, or when its charset fails, decoding continues with utf-8 exactly as `detectAndDecodeText` does |
| TextDecoding.Utf8BomSameAsDetect | src/csv/smart-decode-text.ts:37-47 | unless the mark is a UTF-16 one, `smartDecodeText` and `detectAndDecodeText` agree |
| TextDecoding.ReplacementOnlyFromLastResort | src/csv/smart-decode-text.ts:25-71 | a result containing U+FFFD comes only from the lenient last resort, after every attempt has failed |
| TextDecoding.DetectReplacementOnlyFromLastResort | src/csv/csv-parser.ts:235-245 | the same for `detectAndDecodeText` |
| CellValues.ValueText | src/xlsx/parse-cell-value.ts:9-10 | there is a text exactly when the cell has a `v` descendant |
| CellValues.SharedStringAt | src/xlsx/parse-cell-value.ts:17-18 | `sharedStrings[index] ?? null` is null exactly when the index is NaN, negative or past the end; otherwise it is that entry |
| CellValues.ParseCellValueCases | src/xlsx/parse-cell-value.ts:4-26 | without `v` the result is null; for `t="s"` it is a table entry, and null exactly when the index is NaN or out of range; for `t="b"` it is true exactly for "1"; for any other `t` it is the number written in `v` |
| CellValues.SharedStringCell | test/xlsx/parse-sheet.test.ts:107-132 | a shared-string cell whose `v` holds the numeral of an index of the table, possibly padded, decodes to that entry |
| CellValues.SharedStringCellOutOfRange | src/xlsx/parse-cell-value.ts:16-19 | a shared-string index past the end of the table gives null |
| SharedStrings.ItemTexts | src/xlsx/parse-shared-strings.ts:13-21 | one string per item, in order, each being the text of that item |
| SharedStrings.ParseSharedStrings | src/xlsx/parse-shared-strings.ts:4-23 | empty input gives `[]`; otherwise there is one string per `si` in document order, each the concatenated text of its `t` descendants |
| SharedStrings.PlainItem | src/xlsx/parse-shared-strings.ts:14-19 | `<si><t>s</t></si>` reads as s |
| SparseSheet.CellRef | src/xlsx/parse-sheet.ts:26-29 | a cell's key, when it has one, is never empty |
| SparseSheet.LastCellWithRef | src/xlsx/parse-sheet.ts:31 | the last cell carrying a reference exists exactly when some cell carries it |
| SparseSheet.AssignGet | src/xlsx/parse-sheet.ts:23-33 | each key maps to the decoded value of the last cell carrying it, and no other key exists |
| SparseSheet.AssignDistinct | src/xlsx/parse-sheet.ts:21-33 | the keys of the result are distinct |
| SparseSheet.SheetCellValues | src/xlsx/parse-sheet.ts:14-33 | for a non-empty part, the keys and values come from the cells inside rows, decoded against the one table parsed from the shared-string part |
| SparseSheet.AssignCells | src/xlsx/parse-sheet.ts:25-32 | the inner loop extends the record by the cells of one row |
| SparseSheet.ParseSheet | src/xlsx/parse-sheet.ts:6-36 | the nested loops compute the sheet record; an empty part or a sheet without rows gives `{}`; keys are distinct |
| SheetMatrix.DecodeAll | src/xlsx/sheet-data-to-matrix.ts:8-9 | all keys decode in order, or else the error is that of a key that does not decode |
| SheetMatrix.MaxRow | src/xlsx/sheet-data-to-matrix.ts:5-12 | the maximum row over the keys, 0 for none, reached by some key when positive |
| SheetMatrix.MaxCol | src/xlsx/sheet-data-to-matrix.ts:6-15 | the maximum column over the keys, 0 for none, reached by some key when positive |
| SheetMatrix.MatrixExtent | src/xlsx/sheet-data-to-matrix.ts:5-16 | the first loop fails exactly when a key does not decode, with that key's error, and otherwise computes maxRow and maxCol |
| SheetMatrix.FillMatrix | src/xlsx/sheet-data-to-matrix.ts:24-27 | after the second loop, every cell holds the value of the last key written to it, or null |
| SheetMatrix.WriteEntry | src/xlsx/sheet-data-to-matrix.ts:25-26 | one assignment `matrix[row-1][col-1] = value` extends the filled prefix by one key |
| SheetMatrix.EntryInRange | src/xlsx/sheet-data-to-matrix.ts:9-26 | every decoded key lands inside the maxRow × maxCol matrix |
| SheetMatrix.SheetDataToMatrix | src/xlsx/sheet-data-to-matrix.ts:4-30 | fails exactly when some key is not a valid reference; otherwise returns a fresh maxRow × maxCol matrix holding each key's value at its coordinates and null elsewhere |
| SheetMatrix.UnaddressedIsNull | src/xlsx/sheet-data-to-matrix.ts:19-21 | a position that no key addresses is null |
| SheetMatrix.EmptySheet | src/xlsx/sheet-data-to-matrix.ts:5-21 | the empty record decodes to no coordinates and a 0 × 0 matrix |
| SheetMatrix.InvalidKey | src/xlsx/sheet-data-to-matrix.ts:9 | conversion fails exactly when some key is not a cell reference, with the message "Invalid cell reference: " followed by such a key |
| SheetMatrix.CanonicalKeysLand | src/xlsx/sheet-data-to-matrix.ts:24-27 | when every key is a reference without leading zeros, each key's value is found at `matrix[r-1][c-1]` |
| SheetMatrix.KeyLands | src/xlsx/sheet-data-to-matrix.ts:24-27 | the same for any list of such keys |
| SheetMatrix.AllDecode | src/xlsx/sheet-data-to-matrix.ts:8-9 | references without leading zeros all decode |
| SheetMatrix.OnlyWriter | src/xlsx/sheet-data-to-matrix.ts:24-27 | among such keys, no two address the same position |
| SheetMatrix.ValueAtOnlyWriter | src/xlsx/sheet-data-to-matrix.ts:24-27 | a position written by one key only holds that key's value |
| SheetMatrix.DecodeAllKeepsError | src/xlsx/sheet-data-to-matrix.ts:8-9 | the first key that fails to decode decides the error |
| Workbook.ParseWorkbook | src/xlsx/parse-workbook.ts:9-25 | the loop yields the complete `sheet` elements in document order, never more than there are elements |
| Workbook.SheetInfosLength | src/xlsx/parse-workbook.ts:13-22 | the number of sheet infos is at most the number of elements |
| Workbook.SheetInfosAppend | src/xlsx/parse-workbook.ts:14-23 | document order is kept: the infos of a concatenation are the concatenation of the infos |
| Workbook.SheetInfosSingle | src/xlsx/parse-workbook.ts:19-21 | one element gives its info exactly when it has a non-empty name, sheetId and r:id |
| Workbook.SheetInfosFromElements | src/xlsx/parse-workbook.ts:15-21 | every info has a non-empty name, sheetId and rId, and comes from a complete element |
| Workbook.NormalizeTargetMeaning | src/xlsx/parse-workbook.ts:45 | a target gets the prefix "xl/" exactly when it starts with "worksheets/"; every other target is unchanged; normalising twice changes nothing more |
| Workbook.ParseWorkbookRels | src/xlsx/parse-workbook.ts:34-50 | the loop computes the relationship record, and its keys are distinct |
| Workbook.LastLinkWithId | src/xlsx/parse-workbook.ts:44-45 | the last relationship with an Id exists exactly when some complete relationship carries that Id |
| Workbook.LinksGet | src/xlsx/parse-workbook.ts:41-47 | each Id maps to the normalised target of the last relationship carrying it; Ids from relationships without a non-empty Id and Target are absent |
| UnzipXlsx.CollectSheets | src/xlsx/unzip-xlsx.ts:21-25 | the loop keeps the entries under "xl/worksheets/sheet" |
| UnzipXlsx.UnzipXlsx | src/xlsx/unzip-xlsx.ts:11-34 | an unzip error is passed on; otherwise the result is the classified archive |
| UnzipXlsx.SheetEntriesGet | src/xlsx/unzip-xlsx.ts:21-25 | an entry is kept, with its bytes unchanged, exactly when its path starts with "xl/worksheets/sheet" |
| UnzipXlsx.SheetEntriesDistinct | src/xlsx/unzip-xlsx.ts:19-25 | the sheet paths are distinct |
| UnzipXlsx.ClassifySheets | src/xlsx/unzip-xlsx.ts:19-33 | `sheets` holds exactly the archive's worksheet entries, unchanged, and no other entry |
| UnzipXlsx.ClassifyFixedParts | src/xlsx/unzip-xlsx.ts:27-31 | styles, workbook, sharedStrings and rels come from their fixed paths, and a missing part becomes an empty buffer |
| DenseSheet.GetColumnIndex | src/xlsx/parser-sheet.ts:11-25 | the accumulator loop computes the zero-based column of the leading letters, 0 when there are none, never negative |
| DenseSheet.ColumnIndexOfCellRef | src/xlsx/parser-sheet.ts:11-25 | on a reference `refToCoords` accepts, this column is that column minus one |
| DenseSheet.ColumnIndexExamples | src/xlsx/parser-sheet.ts:12-24 | "A1" gives 0 and "AA1" gives 26; "1" and "a1" also give 0, the same as column A |
| DenseSheet.Texts | src/xlsx/parser-sheet.ts:33 | one text per `t` element, in order |
| DenseSheet.Entries | src/xlsx/parser-sheet.ts:85-96 | every collected column index is non-negative |
| DenseSheet.MaxIndex | src/xlsx/parser-sheet.ts:82-92 | the maximum index, 0 for none, reached by some entry when positive |
| DenseSheet.DenseRows | src/xlsx/parser-sheet.ts:78-106 | one dense row per `row` element, in document order |
| DenseSheet.CollectCells | src/xlsx/parser-sheet.ts:82-96 | the loop collects one entry per cell with a non-empty `r`, and maxColumnIndex is their largest index |
| DenseSheet.ParseRow | src/xlsx/parser-sheet.ts:78-105 | the row array is filled in place with the value of the last entry at each index, null elsewhere |
| DenseSheet.ParseSheet | src/xlsx/parser-sheet.ts:60-107 | an empty part gives `[]`; otherwise one row per `row` element, using the flat list of `t` texts as shared strings |
| DenseSheet.RowShape | src/xlsx/parser-sheet.ts:81-99 | each row is its own maximum column index plus one long, and a row without addressed cells is `[null]` |
| DenseSheet.LastWriterWins | src/xlsx/parser-sheet.ts:101-103 | a later entry at an index overwrites an earlier one |
| DenseSheet.UnsetIsNull | src/xlsx/parser-sheet.ts:99 | a position no entry writes stays null |
| DenseSheet.LeadingGapRow | test/xlsx/parser-sheet.test.ts:62-84 | cells C1 and D1 give `[null, null, C1, D1]` |
| XmlTree.Preorder | src/utils/xml-parser.ts:13-15 | the document-order walk starts at the node itself |
| XmlTree.ElementsNamedAppend | src/utils/xml-parser.ts:13-15 | selecting by name keeps document order across concatenation |
| XmlTree.LeafHasNoDescendants | src/utils/xml-parser.ts:13-18 | an element without children has no matching descendants |
| JsObject.Keys | src/xlsx/xlsx-parser.ts:16-17 | the keys of a record, in insertion order |
| JsObject.Get | src/xlsx/xlsx-parser.ts:49-67 | a lookup finds a value exactly for the keys present |
| JsObject.Put | src/xlsx/xlsx-parser.ts:50 | assigning to a new key appends it, and assigning to a present key keeps the order |
| JsObject.GetPut | src/xlsx/xlsx-parser.ts:50 | after assignment the key reads the new value, and other keys are unchanged |
| JsObject.PutKeepsKeysDistinct | src/xlsx/parse-sheet.ts:31 | assignment never duplicates a key |
| JsObject.OwnKeys | src/xlsx/xlsx-parser.ts:76 | `Object.keys` lists a key exactly when the object has it |
| JsObject.OwnKeysPermutation | src/xlsx/xlsx-parser.ts:76 | `Object.keys` is a permutation of the creation order, so it has one entry per key |
| JsObject.OwnKeysDistinct | src/xlsx/xlsx-parser.ts:76 | when the keys are distinct, as an object's always are, `Object.keys` lists each key once, and every key |
| JsObject.OwnKeysOrder | src/xlsx/xlsx-parser.ts:76 | `Object.keys` lists the array-index keys first, in ascending numeric order, and then the other keys in insertion order |
| JsObject.OwnKeysWithoutIndices | src/xlsx/xlsx-parser.ts:76 | without array-index keys, `Object.keys` is insertion order |
| JsObject.SortIndices | src/xlsx/xlsx-parser.ts:76 | the ascending order of array-index keys is a permutation of them |
| JsString.NatToDecimalIsCanonical | src/xlsx/xlsx-parser.ts:85 | a number is written in decimal without leading zeros, and reads back as itself |
| JsString.DecimalRoundTrip | src/utils/ref-coords.ts:22 | a canonical numeral is the decimal writing of its value |
| JsString.TrimIsSlice | src/csv/csv-parser.ts:130 | `trim` removes white space at both ends only, and its result has none there |
| JsString.TrimEmptyIff | src/csv/csv-parser.ts:130 | a field trims to "" exactly when it is all white space |
| JsString.TrimIdempotent | src/csv/csv-parser.ts:173 | trimming twice is trimming once |
| JsString.ParseIntOfDecimal | src/xlsx/parse-cell-value.ts:17 | `parseInt` of padded decimal digits followed by a non-digit is their value |
| JsString.ParseIntUnsigned | src/xlsx/parse-cell-value.ts:17 | `parseInt` reads the leading digit run after white space |
| Xlsx.SheetTableGet | src/xlsx/xlsx-parser.ts:47-51 | `sheets[name]` is `rels[rId]` of the last workbook entry with that name; names not in the workbook are absent |
| Xlsx.SheetTableKeys | src/xlsx/xlsx-parser.ts:47-51 | the sheet table's keys are the workbook's names in first-occurrence order |
| Xlsx.WorkbookSheetNames | test/xlsx/xlsx-parser.test.ts:9-11 | the intended listing of sheet names: the workbook's names in first-occurrence order, which for distinct names is the workbook order itself |
| Xlsx.AllSheetsInWorkbookOrder | src/xlsx/xlsx-parser.ts:74-77 | when no sheet name is an array index, `Object.keys` of the sheet table, as the source lists it, is the workbook order |
| Xlsx.NumericSheetNameListedFirst | src/xlsx/xlsx-parser.ts:74-77 | with the sheets "Sheet1" and then "2024", `getAllSheets` gives ["2024", "Sheet1"], while the workbook order is ["Sheet1", "2024"] |
| Xlsx.PathOfLastEntry | src/xlsx/xlsx-parser.ts:47-72 | a sheet name has a path exactly when its last workbook entry has a relationship with a non-empty target; that target is the path |
| Xlsx.IndexOutOfRange | src/xlsx/xlsx-parser.ts:80-86 | a numeric request out of range names no sheet, and its error is "Sheet not found: " followed by the index |
| Xlsx.IndexInRange | src/xlsx/xlsx-parser.ts:80-82 | a numeric request in range names the sheet listed at that position |
| Xlsx.LookupCellMeaning | src/xlsx/xlsx-parser.ts:103 | a reference absent from the sheet yields undefined; a present one yields its value |
| Xlsx.XlsxParser.constructor | src/xlsx/xlsx-parser.ts:8-22 | a new parser holds its input; nothing is unpacked, initialised or cached |
| Xlsx.XlsxParser.GetRawData | src/xlsx/xlsx-parser.ts:33-38 | unpacks the archive only when nothing is cached, then returns the cached raw data; the unzip count grows by one per call until unpacking succeeds, and not after |
| Xlsx.XlsxParser.InitialSheets | src/xlsx/xlsx-parser.ts:40-53 | once initialised nothing changes; otherwise the loop fills `sheets` with the table of the workbook entries and their relationships |
| Xlsx.XlsxParser.GetSheetPath | src/xlsx/xlsx-parser.ts:65-72 | an unpack error is passed on; a name without a path fails with "Sheet not found: " followed by the name; otherwise the result is the path |
| Xlsx.XlsxParser.GetSheetRawData | src/xlsx/xlsx-parser.ts:24-31 | the part at the sheet's path, empty when the archive has no such entry, with the same errors as `getSheetPath` |
| Xlsx.XlsxParser.SheetDataCheck | src/xlsx/xlsx-parser.ts:55-63 | a sheet already cached is left as it is; otherwise its `parseSheet` result is cached under its name; a missing path fails and caches nothing |
| Xlsx.XlsxParser.CacheSheet | src/xlsx/xlsx-parser.ts:57-62 | caches the `parseSheet` result of the named sheet's part, decoded with the archive's shared strings |
| Xlsx.XlsxParser.GetAllSheets | src/xlsx/xlsx-parser.ts:74-77 | the sheet names in workbook order (the corrected listing of the finding below), or the unpack error; the sheet table is read first |
| Xlsx.XlsxParser.ReadSheet | src/xlsx/xlsx-parser.ts:79-90 | a name, or the listed name at an index, is cached and converted by `sheetDataToMatrix`; an empty name or an index out of range fails with "Sheet not found: " followed by the request, and every failure before the sheet is parsed leaves the cache as it was; an index request reads the sheet table, a name request only when the sheet is not cached; an unpacked archive is not unpacked again |
| Xlsx.XlsxParser.ReadNamedSheet | src/xlsx/xlsx-parser.ts:88-89 | the matrix of the cached sheet data, or the error of conversion; the cache is unchanged when the archive does not unpack or the sheet has no path, and a conversion error leaves the parsed sheet cached; the sheet table is read only for a sheet not yet cached |
| Xlsx.XlsxParser.GetCellValue | src/xlsx/xlsx-parser.ts:92-104 | the sheet list is always read first, so the table is read exactly when the archive unpacks; an empty name or an index out of range gives null and leaves the cache as it was; otherwise the value of the reference in the cached sheet, or undefined |
| Xlsx.XlsxParser.NamedCellValue | src/xlsx/xlsx-parser.ts:102-103 | caches the named sheet and looks the reference up in it; the cache is unchanged on failure |
| Xlsx.NewXlsxParser | src/xlsx/xlsx-parser.ts:107-109 | a fresh parser over the data, in the state the constructor sets up |

## Left out

- The zip library, the XML parser and `TextDecoder` are foreign calls. They are function parameters with no properties assumed (`src/utils/unzip-async.ts`, `src/utils/xml-parser.ts`). The `XmlParser` is not part of this model beyond its `find`, which becomes a tree selection over the parsed document. A `NodeList` is a sequence.
- File reading and promises are left out: `readFileWithEncoding`, `newCsvParserFromFile`, `parseCSVFromFile` and `newXlsxParserFromFile`. The `XlsxParser` methods are sequential calls. Two interleaved calls on one instance have no guard in the source, and two overlapping unpacks are not modelled.
- `Number.parseFloat` and number arithmetic are left out. `CellValues.ParseCellValueCases` gives a numeric cell as `Num(literal)`, the text that `parseFloat` would read, so NaN and numeric equality are not captured.
- `isNumber` depends on dynamic typing. A request is a name or an integer index (`SheetRequest`). A fractional, NaN or infinite index, and the JS string of such a number in the error message, are left out.
- Names that collide with `Object.prototype` members are left out. For example, a sheet or cell reference named "constructor" or "__proto__" reads inherited members in JS. A record here holds only its own keys.
- The `newline` and `encoding` options are resolved with their defaults (`Csv.ResolveMeaning`) but are otherwise unused, as in the source: `isNewline` always tests "\n" and "\r".
- CsvProofs.RoundTripWithoutFinalLineEnd: it requires that the last row is not the single empty field `[""]`. Text ending without a line end after such a row produces no row (`finalizeLastRow`, src/csv/csv-parser.ts:112). The round trip with a final line end (`CsvProofs.RoundTrip`) has no such restriction.
- CsvProofs.RoundTrip: it covers options where the quote is also the escape character, it differs from the delimiter, and neither is a newline. Other option combinations are scanned by the model, and their single steps are stated by the `CsvProofs` step lemmas, but they have no round-trip lemma.
- RefCoords.RefToCoords, RefCoords.CoordsToRef and the lemmas about them (`RefCoords.DecodeOkIff`, `RefCoords.EncodeThenDecode`, `RefCoords.DecodeThenEncode`) use unbounded integers. In the source, `Number(rowDigits)` (src/utils/ref-coords.ts:22) and the `col` accumulator (src/utils/ref-coords.ts:27-32) are doubles, exact only up to 2^53, and `${row}` (src/utils/ref-coords.ts:68) writes exponent form from 10^21 on, so `coordsToRef({row: 1e21, col: 1})` gives "A1e+21", which `refToCoords` rejects. The round trips hold in the source only below those limits.
- SheetMatrix.SheetDataToMatrix: it returns `Ok` for any extent. In the source, `Array.from({length: maxRow})` and `new Array(maxCol)` (src/xlsx/sheet-data-to-matrix.ts:19-20) throw a RangeError when an extent exceeds 2^32 - 1; that error is not modelled.
- DenseSheet.ParseRow, DenseSheet.ParseSheet: a row is returned for any column index. In the source, `new Array(maxColumnIndex + 1)` (src/xlsx/parser-sheet.ts:99) throws a RangeError when the length exceeds 2^32 - 1. For example, a cell "ZZZZZZZ1" has column index 8,353,082,581, so `parseSheet` throws there. That error is not modelled. The `getColumnIndex` accumulator (src/xlsx/parser-sheet.ts:20-22) is a double, exact only up to 2^53, while `DenseSheet.GetColumnIndex` uses unbounded integers.
- Strings are sequences of Dafny `char`, which are Unicode scalar values, while a JavaScript string is a sequence of UTF-16 code units. The two agree on characters of the Basic Multilingual Plane. For a character outside it, one model `char` is two JavaScript code units. So with a delimiter, quote or escape option outside the Basic Multilingual Plane, `char === this.options.delimiter` (src/csv/csv-parser.ts:67) never holds in the source, but `Csv.IsChar` holds in the model. The CSV lemmas (`Csv.Step`, the `CsvProofs` step lemmas and `CsvProofs.RoundTrip`) describe the source only for options inside the Basic Multilingual Plane. String lengths and indices likewise count scalars, not code units.
- Xlsx.XlsxParser.CacheSheet, Xlsx.XlsxParser.ReadNamedSheet and Xlsx.XlsxParser.NamedCellValue are the tails of `sheetDataCheck`, `readSheet` and `getCellValue`, split out as their own methods. They are not source functions.
- Xlsx.XlsxParser.GetAllSheets: it lists the sheet table in creation order, not in `Object.keys` order. The two differ only when a sheet name is an array index (see "## Findings"). `Xlsx.XlsxParser.ReadSheet` and `Xlsx.XlsxParser.GetCellValue` resolve an index against this corrected list.
- Xlsx.XlsxParser.ReadSheet: the matrix is returned as a fresh `array2`. Whether two calls return the same array object is not stated. Each call converts the same cached sheet data.
- `src/utils/is-xlsx.ts` and `isXlsxByMime` compare a MIME type string. They are not part of this model.

## Findings

| source | as written | input that shows it | evidently intended | confidence | as-written member | corrected member |
|---|---|---|---|---|---|---|
| src/xlsx/xlsx-parser.ts:74-77 | `getAllSheets` returns `Object.keys(this.sheets)`, which lists keys that are array indices (such as "2024") before all other keys | a workbook whose sheets are "Sheet1" and then "2024" lists ["2024", "Sheet1"], so `readSheet(0)` and the default of `getCellValue` read "2024" | the sheet names in workbook order, as the test at test/xlsx/xlsx-parser.test.ts:9-11 expects | not executed | Xlsx.NumericSheetNameListedFirst | Xlsx.WorkbookSheetNames |

`Xlsx.NumericSheetNameListedFirst` is stated on the source's listing, `Object.keys` of the sheet table. The corrected listing is `Xlsx.WorkbookSheetNames`. Its contract proves that it is the workbook's names in first-occurrence order, which is the workbook order itself when the names are distinct. `Xlsx.XlsxParser.GetAllSheets`, and through it the index requests of `readSheet` and `getCellValue`, use the corrected listing. `Xlsx.AllSheetsInWorkbookOrder` proves that the two listings agree whenever no name is an array index.

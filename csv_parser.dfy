/**
 * The CSV scanner of `csv-parser.ts`: one pass over the text by character
 * index with a single `inQuotes` flag.  A scan state (Scan) and one step of
 * the scanning loop (Step) specify the class's methods; the properties of
 * the scanner are proved in CsvProofs.
 */
module Csv {
  import opened Wrappers
  import opened JsString

  /** `CsvParseOptions`: every field may be left out. */
  datatype ParseOptions = ParseOptions(
    delimiter: Option<string>, quote: Option<string>, escape: Option<string>, newline: Option<string>,
    skipEmptyLines: Option<bool>, trimFields: Option<bool>, headers: Option<bool>, encoding: Option<string>)

  /** `Required<CsvParseOptions>`. */
  datatype Options = Options(
    delimiter: string, quote: string, escape: string, newline: string,
    skipEmptyLines: bool, trimFields: bool, headers: bool, encoding: string)

  /** `CsvData`. */
  datatype CsvData = CsvData(headers: Option<seq<string>>, rows: seq<seq<string>>)

  function OrElse<T>(o: Option<T>, default: T): T
  {
    if o.Some? then o.value else default
  }

  /** The constructor's `options.x ?? default` for every option. */
  function Resolve(p: ParseOptions): (o: Options)
  {
    Options(OrElse(p.delimiter, ","), OrElse(p.quote, "\""), OrElse(p.escape, "\""), OrElse(p.newline, "\n"),
            OrElse(p.skipEmptyLines, true), OrElse(p.trimFields, false), OrElse(p.headers, false),
            OrElse(p.encoding, "utf-8"))
  }

  const NoOptions := ParseOptions(None, None, None, None, None, None, None, None)

  /** Options given explicitly are kept as given (even ""), the others take their defaults. */
  lemma ResolveMeaning(p: ParseOptions)
    ensures var o := Resolve(p);
      && (p.delimiter.Some? ==> o.delimiter == p.delimiter.value) && (p.delimiter.None? ==> o.delimiter == ",")
      && (p.quote.Some? ==> o.quote == p.quote.value) && (p.quote.None? ==> o.quote == "\"")
      && (p.escape.Some? ==> o.escape == p.escape.value) && (p.escape.None? ==> o.escape == "\"")
      && (p.newline.Some? ==> o.newline == p.newline.value) && (p.newline.None? ==> o.newline == "\n")
      && (p.skipEmptyLines.Some? ==> o.skipEmptyLines == p.skipEmptyLines.value) && (p.skipEmptyLines.None? ==> o.skipEmptyLines)
      && (p.trimFields.Some? ==> o.trimFields == p.trimFields.value) && (p.trimFields.None? ==> !o.trimFields)
      && (p.headers.Some? ==> o.headers == p.headers.value) && (p.headers.None? ==> !o.headers)
      && (p.encoding.Some? ==> o.encoding == p.encoding.value) && (p.encoding.None? ==> o.encoding == "utf-8")
  {
  }

  /** `char === option`: a one-character string equals the option only when the option is that character. */
  predicate IsChar(c: char, option: string)
  {
    option == [c]
  }

  /** `isNewline`: only line feed and carriage return, whatever the newline option says. */
  predicate IsNewline(c: char)
  {
    c == '\n' || c == '\r'
  }

  /** `processField`. */
  function ProcessField(o: Options, field: string): string
  {
    if o.trimFields then Trim(field) else field
  }

  /** `row.every((field) => field.trim() === '')`. */
  predicate AllBlank(row: seq<string>)
  {
    row == [] || (Trim(row[0]) == "" && AllBlank(row[1..]))
  }

  /** `shouldSkipRow`: with skipEmptyLines, a row whose fields all trim to "". */
  predicate ShouldSkipRow(o: Options, row: seq<string>)
  {
    o.skipEmptyLines && AllBlank(row)
  }

  /** `addRowIfNotEmpty`. */
  function AddRowIfNotEmpty(o: Options, row: seq<string>, rows: seq<seq<string>>): seq<seq<string>>
  {
    if ShouldSkipRow(o, row) then rows else rows + [row]
  }

  /** `skipNewlineSequence`: past "\r\n" as one break, past any other newline character alone. */
  function SkipNewlineSequence(text: string, index: nat): nat
    requires index < |text|
  {
    if text[index] == '\r' && index + 1 < |text| && text[index + 1] == '\n' then index + 2 else index + 1
  }

  /** `finalizeLastRow`: the pending field and row, when there is anything pending. */
  function FinalizeLastRow(o: Options, currentField: string, currentRow: seq<string>, rows: seq<seq<string>>): seq<seq<string>>
  {
    if currentField != "" || |currentRow| > 0 then
      var row := currentRow + [ProcessField(o, currentField)];
      if !ShouldSkipRow(o, row) then rows + [row] else rows
    else rows
  }

  /** The result of `handleQuotedCharacter`. */
  datatype QuotedStep = QuotedStep(field: string, stillInQuotes: bool, nextIndex: nat)

  /** `nextChar`: the following character as a string, "" at the end. */
  function NextChar(line: string, index: nat): string
  {
    if index + 1 < |line| then [line[index + 1]] else ""
  }

  /** `handleQuotedCharacter(line, index, currentField)`. */
  function HandleQuotedCharacter(o: Options, line: string, index: nat, currentField: string): (r: QuotedStep)
    requires index < |line|
  {
    var c := line[index];
    var nextChar := NextChar(line, index);
    if IsChar(c, o.escape) && nextChar == o.quote then QuotedStep(currentField + o.quote, true, index + 2)
    else if IsChar(c, o.quote) && nextChar == o.quote then QuotedStep(currentField + o.quote, true, index + 2)
    else if IsChar(c, o.quote) then QuotedStep(currentField, false, index + 1)
    else QuotedStep(currentField + [c], true, index + 1)
  }

  /** The local variables of `parseText`. */
  datatype Scan = Scan(i: nat, inQuotes: bool, field: string, row: seq<string>, rows: seq<seq<string>>)

  const Start := Scan(0, false, "", [], [])

  /** One iteration of the loop of `parseText`. */
  function Step(o: Options, text: string, s: Scan): (r: Scan)
    requires s.i < |text|
    ensures r.i > s.i
  {
    if s.inQuotes then
      var q := HandleQuotedCharacter(o, text, s.i, s.field);
      s.(field := q.field, inQuotes := q.stillInQuotes, i := q.nextIndex)
    else
      var c := text[s.i];
      if IsChar(c, o.quote) then s.(inQuotes := true, i := s.i + 1)
      else if IsChar(c, o.delimiter) then s.(row := s.row + [ProcessField(o, s.field)], field := "", i := s.i + 1)
      else if IsNewline(c) then
        var row := s.row + [ProcessField(o, s.field)];
        s.(rows := AddRowIfNotEmpty(o, row, s.rows), row := [], field := "", i := SkipNewlineSequence(text, s.i))
      else s.(field := s.field + [c], i := s.i + 1)
  }

  /** The loop of `parseText` from s to the end of the text; it ends because every step advances the index. */
  function Run(o: Options, text: string, s: Scan): (r: Scan)
    ensures r.i >= |text|
    decreases |text| - s.i
  {
    if s.i >= |text| then s else Run(o, text, Step(o, text, s))
  }

  /** The rows `parseText` returns. */
  function Rows(o: Options, text: string): seq<seq<string>>
  {
    var last := Run(o, text, Start);
    FinalizeLastRow(o, last.field, last.row, last.rows)
  }

  /** What `parse` returns for the rows of the text. */
  function Data(o: Options, rows: seq<seq<string>>): CsvData
  {
    if o.headers && |rows| > 0 then CsvData(Some(rows[0]), rows[1..]) else CsvData(None, rows)
  }

  /** A header row is split off exactly when headers is set and there is a row; nothing is lost or reordered. */
  lemma DataMeaning(o: Options, rows: seq<seq<string>>)
    ensures Data(o, rows).headers.Some? <==> o.headers && rows != []
    ensures (if Data(o, rows).headers.Some? then [Data(o, rows).headers.value] else []) + Data(o, rows).rows == rows
  {
    if o.headers && |rows| > 0 {
      assert [rows[0]] + rows[1..] == rows;
    }
  }

  /** `CsvParser`. */
  class CsvParser {
    const text: string
    const options: Options

    /** `new CsvParser(text, options)`. */
    constructor(text: string, options: ParseOptions)
      ensures this.text == text && this.options == Resolve(options)
    {
      this.text := text;
      this.options := Resolve(options);
    }

    /** `parseText()`. */
    method ParseText() returns (rows: seq<seq<string>>)
      ensures rows == Rows(options, text)
    {
      rows := [];
      var currentRow: seq<string> := [];
      var currentField := "";
      var inQuotes := false;
      var i: nat := 0;
      while i < |text|
        invariant Run(options, text, Scan(i, inQuotes, currentField, currentRow, rows)) == Run(options, text, Start)
        decreases |text| - i
      {
        var c := text[i];
        if inQuotes {
          var result := HandleQuotedCharacter(options, text, i, currentField);
          currentField := result.field;
          inQuotes := result.stillInQuotes;
          i := result.nextIndex;
          continue;
        }
        if IsChar(c, options.quote) {
          inQuotes := true;
          i := i + 1;
        } else if IsChar(c, options.delimiter) {
          currentRow := currentRow + [ProcessField(options, currentField)];
          currentField := "";
          i := i + 1;
        } else if IsNewline(c) {
          currentRow := currentRow + [ProcessField(options, currentField)];
          rows := AddRowIfNotEmpty(options, currentRow, rows);
          currentRow := [];
          currentField := "";
          i := SkipNewlineSequence(text, i);
        } else {
          currentField := currentField + [c];
          i := i + 1;
        }
      }
      rows := FinalizeLastRow(options, currentField, currentRow, rows);
    }

    /** `parse()`: the rows, the first one split off as headers when asked for and present. */
    method Parse() returns (data: CsvData)
      ensures data == Data(options, Rows(options, text))
      ensures data.headers.Some? <==> options.headers && Rows(options, text) != []
      ensures (if data.headers.Some? then [data.headers.value] else []) + data.rows == Rows(options, text)
    {
      var rows := ParseText();
      DataMeaning(options, rows);
      if options.headers && |rows| > 0 {
        var headers := rows[0];
        rows := rows[1..];
        return CsvData(Some(headers), rows);
      }
      return CsvData(None, rows);
    }
  }

  /** `newCsvParser(text, options)`. */
  method NewCsvParser(text: string, options: ParseOptions) returns (parser: CsvParser)
    ensures fresh(parser) && parser.text == text && parser.options == Resolve(options)
  {
    parser := new CsvParser(text, options);
  }

  /** `parseCSV(text, options)`. */
  method ParseCsv(text: string, options: ParseOptions) returns (data: CsvData)
    ensures data == Data(Resolve(options), Rows(Resolve(options), text))
    ensures data.headers.Some? <==> Resolve(options).headers && Rows(Resolve(options), text) != []
  {
    var parser := new CsvParser(text, options);
    data := parser.Parse();
  }
}

/**
 * Properties of the CSV scanner: the shape of every row it emits, and that
 * it reads back rows written with RFC 4180 quoting (fields holding the quote,
 * the delimiter or a newline enclosed in quotes, inner quotes doubled).
 */
module CsvProofs {
  import opened JsString
  import opened Csv

  /** Every emitted row has a field; with skipEmptyLines it is not blank; with trimFields its fields are trimmed. */
  predicate GoodRow(o: Options, row: seq<string>)
  {
    |row| >= 1 && !ShouldSkipRow(o, row) && (o.trimFields ==> forall k :: 0 <= k < |row| ==> IsTrimmed(row[k]))
  }

  predicate GoodRows(o: Options, rows: seq<seq<string>>)
  {
    forall k :: 0 <= k < |rows| ==> GoodRow(o, rows[k])
  }

  predicate GoodScan(o: Options, s: Scan)
  {
    GoodRows(o, s.rows) && (o.trimFields ==> forall k :: 0 <= k < |s.row| ==> IsTrimmed(s.row[k]))
  }

  lemma ProcessFieldTrimmed(o: Options, field: string)
    ensures o.trimFields ==> IsTrimmed(ProcessField(o, field))
  {
    if o.trimFields {
      TrimIsSlice(field);
    }
  }

  lemma StepKeepsGood(o: Options, text: string, s: Scan)
    requires s.i < |text| && GoodScan(o, s)
    ensures GoodScan(o, Step(o, text, s))
  {
    ProcessFieldTrimmed(o, s.field);
  }

  lemma {:induction false} RunKeepsGood(o: Options, text: string, s: Scan)
    requires GoodScan(o, s)
    ensures GoodScan(o, Run(o, text, s))
    decreases |text| - s.i
  {
    if s.i < |text| {
      StepKeepsGood(o, text, s);
      RunKeepsGood(o, text, Step(o, text, s));
    }
  }

  /**
   * Every row `parseText` returns has at least one field; with
   * skipEmptyLines none is blank; with trimFields every field is trimmed.
   */
  lemma RowsAreGood(o: Options, text: string)
    ensures GoodRows(o, Rows(o, text))
  {
    RunKeepsGood(o, text, Start);
    var last := Run(o, text, Start);
    ProcessFieldTrimmed(o, last.field);
  }

  /** With headers, the header row and the data rows are all good rows. */
  lemma DataIsGood(o: Options, text: string)
    ensures var data := Data(o, Rows(o, text));
      GoodRows(o, data.rows) && (data.headers.Some? ==> GoodRow(o, data.headers.value))
  {
    RowsAreGood(o, text);
  }

  // ----- Writing rows with quoting ---------------------------------------

  /** f with every quote character doubled. */
  function Doubled(f: string, q: char): string
  {
    if f == [] then [] else (if f[0] == q then [q, q] else [f[0]]) + Doubled(f[1..], q)
  }

  function Quoted(f: string, q: char): string
  {
    [q] + Doubled(f, q) + [q]
  }

  predicate IsSpecial(c: char, q: char, d: char)
  {
    c == q || c == d || IsNewline(c)
  }

  /** Some character of f is special. */
  predicate NeedsQuotes(f: string, q: char, d: char)
  {
    f != [] && (IsSpecial(f[0], q, d) || NeedsQuotes(f[1..], q, d))
  }

  /** A field as written: quoted when it holds a quote, a delimiter or a newline, else as it is. */
  function EncodeField(f: string, q: char, d: char): string
  {
    if NeedsQuotes(f, q, d) then Quoted(f, q) else f
  }

  function EncodeFields(fs: seq<string>, q: char, d: char): string
    requires |fs| >= 1
  {
    if |fs| == 1 then EncodeField(fs[0], q, d) else EncodeField(fs[0], q, d) + [d] + EncodeFields(fs[1..], q, d)
  }

  /** The rows written one per line, each line ended by eol. */
  function EncodeRows(rows: seq<seq<string>>, q: char, d: char, eol: string): string
    requires forall k :: 0 <= k < |rows| ==> |rows[k]| >= 1
  {
    if rows == [] then "" else EncodeFields(rows[0], q, d) + eol + EncodeRows(rows[1..], q, d, eol)
  }

  /** Options under which the quote is q and also the escape, the delimiter is d, and neither is a newline. */
  predicate Dialect(o: Options, q: char, d: char)
  {
    o.quote == [q] && o.escape == [q] && o.delimiter == [d] && q != d && !IsNewline(q) && !IsNewline(d)
  }

  /** The three line ends the scanner accepts. */
  predicate IsLineEnd(eol: string)
  {
    eol == "\n" || eol == "\r\n" || eol == "\r"
  }

  /** No line feed at position p: what a lone "\r" line end needs after it. */
  predicate NoLineFeedAt(text: string, p: nat)
  {
    p < |text| ==> text[p] != '\n'
  }

  predicate NoLeadingLineFeed(s: string)
  {
    s != [] ==> s[0] != '\n'
  }

  lemma ConcatNoLeadingLineFeed(a: string, b: string)
    requires NoLeadingLineFeed(a) && NoLeadingLineFeed(b)
    ensures NoLeadingLineFeed(a + b)
  {
    if a == [] {
      assert a + b == b;
    } else {
      assert (a + b)[0] == a[0];
    }
  }

  /** A written field starts with the quote or with an ordinary character, never with a line feed. */
  lemma FieldNoLeadingLineFeed(f: string, q: char, d: char)
    requires !IsNewline(q)
    ensures NoLeadingLineFeed(EncodeField(f, q, d))
  {
    if NeedsQuotes(f, q, d) {
      assert Quoted(f, q)[0] == q;
    }
  }

  lemma {:induction false} FieldsNoLeadingLineFeed(fs: seq<string>, q: char, d: char)
    requires !IsNewline(q) && !IsNewline(d) && |fs| >= 1
    ensures NoLeadingLineFeed(EncodeFields(fs, q, d))
  {
    FieldNoLeadingLineFeed(fs[0], q, d);
    if |fs| > 1 {
      ConcatNoLeadingLineFeed(EncodeField(fs[0], q, d), [d]);
      ConcatNoLeadingLineFeed(EncodeField(fs[0], q, d) + [d], EncodeFields(fs[1..], q, d));
    }
  }

  /** With a line end other than "\n", written rows never start with a line feed. */
  lemma RowsNoLeadingLineFeed(rs: seq<seq<string>>, q: char, d: char, eol: string)
    requires !IsNewline(q) && !IsNewline(d) && NoLeadingLineFeed(eol)
    requires forall k :: 0 <= k < |rs| ==> |rs[k]| >= 1
    ensures NoLeadingLineFeed(EncodeRows(rs, q, d, eol))
  {
    if rs != [] {
      FieldsNoLeadingLineFeed(rs[0], q, d);
      ConcatNoLeadingLineFeed(EncodeFields(rs[0], q, d), eol);
      ConcatNoLeadingLineFeed(EncodeFields(rs[0], q, d) + eol, EncodeRows(rs[1..], q, d, eol));
    }
  }

  /** s occurs in text at position p. */
  predicate At(text: string, p: nat, s: string)
    decreases |s|
  {
    if s == [] then p <= |text| else p < |text| && text[p] == s[0] && At(text, p + 1, s[1..])
  }

  lemma {:induction false} AtSuffix(text: string, p: nat)
    requires p <= |text|
    ensures At(text, p, text[p..])
    decreases |text| - p
  {
    if p < |text| {
      assert text[p..][1..] == text[p + 1..];
      AtSuffix(text, p + 1);
    }
  }

  lemma {:induction false} AtConcat(text: string, p: nat, a: string, b: string)
    requires At(text, p, a + b)
    ensures At(text, p, a) && At(text, p + |a|, b)
    decreases |a|
  {
    if a == [] {
      assert a + b == b;
    } else {
      assert (a + b)[0] == a[0] && (a + b)[1..] == a[1..] + b;
      AtConcat(text, p + 1, a[1..], b);
    }
  }

  lemma {:induction false} AtChar(text: string, p: nat, s: string, k: nat)
    requires At(text, p, s) && k < |s|
    ensures p + k < |text| && text[p + k] == s[k]
    decreases k
  {
    if k > 0 {
      AtChar(text, p + 1, s[1..], k - 1);
    }
  }

  lemma ProcessTrimmed(o: Options, f: string)
    requires o.trimFields ==> IsTrimmed(f)
    ensures ProcessField(o, f) == f
  {
    if o.trimFields {
      TrimOfTrimmed(f);
    }
  }

  // One step of the scanner in each situation it meets.  Outside quotes only
  // the quote and the delimiter options matter; inside quotes the escape
  // matters only when it is directly followed by the quote.

  /** Outside quotes, a character that is not the quote, the delimiter or a newline is appended to the field. */
  lemma StepPlainChar(o: Options, text: string, p: nat, acc: string, row: seq<string>, rows: seq<seq<string>>)
    requires p < |text| && o.quote != [text[p]] && o.delimiter != [text[p]] && !IsNewline(text[p])
    ensures Step(o, text, Scan(p, false, acc, row, rows)) == Scan(p + 1, false, acc + [text[p]], row, rows)
  {
  }

  /** Outside quotes, the quote opens quoted mode, also in the middle of a field, and keeps what the field holds. */
  lemma StepOpenQuote(o: Options, text: string, p: nat, acc: string, row: seq<string>, rows: seq<seq<string>>, q: char)
    requires o.quote == [q] && p < |text| && text[p] == q
    ensures Step(o, text, Scan(p, false, acc, row, rows)) == Scan(p + 1, true, acc, row, rows)
  {
  }

  /**
   * Inside quotes, a character other than the quote is appended, unless it
   * is the escape and the quote follows it.
   */
  lemma StepQuotedChar(o: Options, text: string, p: nat, acc: string, row: seq<string>, rows: seq<seq<string>>, q: char)
    requires o.quote == [q] && p < |text| && text[p] != q
    requires o.escape == [text[p]] && p + 1 < |text| ==> text[p + 1] != q
    ensures Step(o, text, Scan(p, true, acc, row, rows)) == Scan(p + 1, true, acc + [text[p]], row, rows)
  {
  }

  /** Inside quotes, two quotes in a row stand for one quote, whatever the escape is. */
  lemma StepDoubledQuote(o: Options, text: string, p: nat, acc: string, row: seq<string>, rows: seq<seq<string>>, q: char)
    requires o.quote == [q] && p + 1 < |text| && text[p] == q && text[p + 1] == q
    ensures Step(o, text, Scan(p, true, acc, row, rows)) == Scan(p + 2, true, acc + [q], row, rows)
  {
    assert NextChar(text, p) == [q];
  }

  /** Inside quotes, the escape followed by the quote stands for one quote. */
  lemma StepEscapedQuote(o: Options, text: string, p: nat, acc: string, row: seq<string>, rows: seq<seq<string>>, q: char, e: char)
    requires o.quote == [q] && o.escape == [e] && p + 1 < |text| && text[p] == e && text[p + 1] == q
    ensures Step(o, text, Scan(p, true, acc, row, rows)) == Scan(p + 2, true, acc + [q], row, rows)
  {
    assert NextChar(text, p) == [q];
  }

  /** Inside quotes, a quote not followed by another quote closes quoted mode and adds nothing, whatever the escape is. */
  lemma StepCloseQuote(o: Options, text: string, p: nat, acc: string, row: seq<string>, rows: seq<seq<string>>, q: char)
    requires o.quote == [q] && p < |text| && text[p] == q
    requires p + 1 < |text| ==> text[p + 1] != q
    ensures Step(o, text, Scan(p, true, acc, row, rows)) == Scan(p + 1, false, acc, row, rows)
  {
    assert NextChar(text, p) != [q];
  }

  /** Outside quotes, the delimiter pushes the processed field (trimmed under trimFields) and starts a new one. */
  lemma StepDelimiter(o: Options, text: string, p: nat, field: string, row: seq<string>, rows: seq<seq<string>>, d: char)
    requires o.delimiter == [d] && o.quote != [d] && p < |text| && text[p] == d
    ensures Step(o, text, Scan(p, false, field, row, rows)) == Scan(p + 1, false, "", row + [ProcessField(o, field)], rows)
  {
  }

  /** Under trimFields the pending field " age " is pushed as "age" at the delimiter. */
  lemma StepDelimiterTrimsField(o: Options)
    requires o.trimFields && o.delimiter == "," && o.quote == "\""
    ensures Step(o, " age ,", Scan(5, false, " age ", [], [])) == Scan(6, false, "", ["age"], [])
  {
    assert Trim(" age ") == "age" by {
      assert " age "[1..] == "age " && "age "[..3] == "age";
      assert TrimStart(" age ") == "age ";
      assert TrimEnd("age ") == "age";
    }
  }

  /** A line end at p: "\n", "\r\n", or a "\r" that no "\n" follows. */
  predicate LineEndAt(text: string, p: nat, eol: string)
  {
    && At(text, p, eol)
    && (eol == "\n" || eol == "\r\n" || (eol == "\r" && (p + 1 < |text| ==> text[p + 1] != '\n')))
  }

  /**
   * Outside quotes, a line end pushes the processed field, emits the row
   * when it is not skipped, and starts a new row past the whole line end.
   */
  lemma StepLineEnd(o: Options, text: string, p: nat, field: string, row: seq<string>, rows: seq<seq<string>>, eol: string)
    requires LineEndAt(text, p, eol)
    requires o.quote != [eol[0]] && o.delimiter != [eol[0]]
    requires !ShouldSkipRow(o, row + [ProcessField(o, field)])
    ensures p < |text|
    ensures Step(o, text, Scan(p, false, field, row, rows)) == Scan(p + |eol|, false, "", [], rows + [row + [ProcessField(o, field)]])
  {
    AtChar(text, p, eol, 0);
    if eol == "\r\n" {
      AtChar(text, p, eol, 1);
    }
  }

  /** Outside quotes, with skipEmptyLines, a line end after a blank row emits nothing and starts a new row. */
  lemma StepSkippedLine(o: Options, text: string, p: nat, field: string, row: seq<string>, rows: seq<seq<string>>, eol: string)
    requires LineEndAt(text, p, eol)
    requires o.quote != [eol[0]] && o.delimiter != [eol[0]]
    requires o.skipEmptyLines && AllBlank(row + [ProcessField(o, field)])
    ensures p < |text|
    ensures Step(o, text, Scan(p, false, field, row, rows)) == Scan(p + |eol|, false, "", [], rows)
  {
    AtChar(text, p, eol, 0);
    if eol == "\r\n" {
      AtChar(text, p, eol, 1);
    }
  }

  // Reading back the written form, piece by piece.  Each lemma returns the
  // number of scanner steps the piece takes.

  /** The scan state n steps after s, or the state at which the text ends if that comes first. */
  function Iterate(o: Options, text: string, s: Scan, n: nat): Scan
    decreases n
  {
    if n == 0 || s.i >= |text| then s else Iterate(o, text, Step(o, text, s), n - 1)
  }

  /** s leads to t in n steps. */
  predicate Leads(o: Options, text: string, s: Scan, n: nat, t: Scan)
  {
    Iterate(o, text, s, n) == t
  }

  lemma {:induction false} IterateAdd(o: Options, text: string, s: Scan, n: nat, m: nat)
    ensures Iterate(o, text, s, n + m) == Iterate(o, text, Iterate(o, text, s, n), m)
    decreases n
  {
    if n > 0 && s.i < |text| {
      IterateAdd(o, text, Step(o, text, s), n - 1, m);
    }
  }

  /** n steps from s to t and then m steps from t to u are n + m steps from s to u. */
  lemma Then(o: Options, text: string, s: Scan, n: nat, t: Scan, m: nat, u: Scan)
    requires Leads(o, text, s, n, t) && Leads(o, text, t, m, u)
    ensures Leads(o, text, s, n + m, u)
  {
    IterateAdd(o, text, s, n, m);
  }

  /** Running the scanner from s is running it from any state s leads to. */
  lemma {:induction false} RunIterate(o: Options, text: string, s: Scan, n: nat)
    ensures Run(o, text, Iterate(o, text, s, n)) == Run(o, text, s)
    decreases n
  {
    if n > 0 && s.i < |text| {
      RunIterate(o, text, Step(o, text, s), n - 1);
    }
  }

  /** The first character of a doubled body takes one step: two characters for a quote, one otherwise. */
  lemma StepDoubledHead(o: Options, text: string, p: nat, g: string, acc: string, row: seq<string>, rows: seq<seq<string>>, q: char)
    returns (w: nat)
    requires o.quote == [q] && o.escape == [q]
    requires g != [] && At(text, p, Doubled(g, q))
    ensures 1 <= w == |Doubled(g, q)| - |Doubled(g[1..], q)| && At(text, p + w, Doubled(g[1..], q))
    ensures Step(o, text, Scan(p, true, acc, row, rows)) == Scan(p + w, true, acc + [g[0]], row, rows)
  {
    var head := if g[0] == q then [q, q] else [g[0]];
    assert Doubled(g, q) == head + Doubled(g[1..], q);
    AtConcat(text, p, head, Doubled(g[1..], q));
    AtChar(text, p, head, 0);
    if g[0] == q {
      AtChar(text, p, head, 1);
      StepDoubledQuote(o, text, p, acc, row, rows, q);
    } else {
      StepQuotedChar(o, text, p, acc, row, rows, q);
    }
    w := |head|;
  }

  /** Inside quotes, a doubled body is read back as the field it encodes. */
  lemma {:induction false} ScanDoubled(o: Options, text: string, p: nat, g: string, acc: string, row: seq<string>, rows: seq<seq<string>>, q: char)
    returns (n: nat)
    requires o.quote == [q] && o.escape == [q]
    requires At(text, p, Doubled(g, q))
    ensures Leads(o, text, Scan(p, true, acc, row, rows), n, Scan(p + |Doubled(g, q)|, true, acc + g, row, rows))
    decreases |g|
  {
    if g == [] {
      assert acc + g == acc;
      n := 0;
    } else {
      var w := StepDoubledHead(o, text, p, g, acc, row, rows, q);
      var m := ScanDoubled(o, text, p + w, g[1..], acc + [g[0]], row, rows, q);
      assert acc + [g[0]] + g[1..] == acc + g;
      n := m + 1;
    }
  }

  /** A quoted field followed by anything but a quote is read back as its content, outside quotes. */
  lemma ScanQuoted(o: Options, text: string, p: nat, f: string, row: seq<string>, rows: seq<seq<string>>, q: char)
    returns (n: nat)
    requires o.quote == [q] && o.escape == [q]
    requires At(text, p, Quoted(f, q))
    requires p + |Quoted(f, q)| < |text| ==> text[p + |Quoted(f, q)|] != q
    ensures Leads(o, text, Scan(p, false, "", row, rows), n, Scan(p + |Quoted(f, q)|, false, f, row, rows))
  {
    var body := Doubled(f, q);
    AtConcat(text, p, [q] + body, [q]);
    AtConcat(text, p, [q], body);
    AtChar(text, p, [q], 0);
    StepOpenQuote(o, text, p, "", row, rows, q);
    var m := ScanDoubled(o, text, p + 1, f, "", row, rows, q);
    var e := p + 1 + |body|;
    AtChar(text, e, [q], 0);
    assert "" + f == f;
    StepCloseQuote(o, text, e, f, row, rows, q);
    var s1 := Scan(p + 1, true, "", row, rows);
    var s2 := Scan(e, true, f, row, rows);
    Then(o, text, s1, m, s2, 1, Scan(e + 1, false, f, row, rows));
    n := 1 + (m + 1);
  }

  /** An unquoted field without special characters is read back character by character. */
  lemma {:induction false} ScanPlain(o: Options, text: string, p: nat, f: string, acc: string, row: seq<string>, rows: seq<seq<string>>, q: char, d: char)
    returns (n: nat)
    requires Dialect(o, q, d)
    requires At(text, p, f) && !NeedsQuotes(f, q, d)
    ensures Leads(o, text, Scan(p, false, acc, row, rows), n, Scan(p + |f|, false, acc + f, row, rows))
    decreases |f|
  {
    if f == [] {
      assert acc + f == acc;
      n := 0;
    } else {
      AtConcat(text, p, [f[0]], f[1..]);
      assert [f[0]] + f[1..] == f;
      AtChar(text, p, [f[0]], 0);
      StepPlainChar(o, text, p, acc, row, rows);
      var m := ScanPlain(o, text, p + 1, f[1..], acc + [f[0]], row, rows, q, d);
      assert acc + [f[0]] + f[1..] == acc + f;
      n := m + 1;
    }
  }

  lemma ScanField(o: Options, text: string, p: nat, f: string, row: seq<string>, rows: seq<seq<string>>, q: char, d: char)
    returns (n: nat)
    requires Dialect(o, q, d)
    requires At(text, p, EncodeField(f, q, d))
    requires p + |EncodeField(f, q, d)| < |text| ==> text[p + |EncodeField(f, q, d)|] != q
    ensures Leads(o, text, Scan(p, false, "", row, rows), n, Scan(p + |EncodeField(f, q, d)|, false, f, row, rows))
  {
    if NeedsQuotes(f, q, d) {
      n := ScanQuoted(o, text, p, f, row, rows, q);
    } else {
      n := ScanPlain(o, text, p, f, "", row, rows, q, d);
      assert "" + f == f;
    }
  }

  /** A field and the delimiter after it: the field joins the row. */
  lemma ScanFieldThenDelimiter(o: Options, text: string, p: nat, f: string, row: seq<string>, rows: seq<seq<string>>, q: char, d: char)
    returns (n: nat)
    requires Dialect(o, q, d) && (o.trimFields ==> IsTrimmed(f))
    requires At(text, p, EncodeField(f, q, d) + [d])
    ensures Leads(o, text, Scan(p, false, "", row, rows), n, Scan(p + |EncodeField(f, q, d)| + 1, false, "", row + [f], rows))
  {
    var first := EncodeField(f, q, d);
    AtConcat(text, p, first, [d]);
    AtChar(text, p + |first|, [d], 0);
    var m := ScanField(o, text, p, f, row, rows, q, d);
    StepDelimiter(o, text, p + |first|, f, row, rows, d);
    ProcessTrimmed(o, f);
    Then(o, text, Scan(p, false, "", row, rows), m, Scan(p + |first|, false, f, row, rows), 1, Scan(p + |first| + 1, false, "", row + [f], rows));
    n := m + 1;
  }

  lemma SplitFirst(row: seq<string>, fs: seq<string>)
    requires |fs| >= 2
    ensures fs[1..][|fs[1..]| - 1] == fs[|fs| - 1]
    ensures row + [fs[0]] + fs[1..][..|fs[1..]| - 1] == row + fs[..|fs| - 1]
  {
    assert fs[..|fs| - 1] == [fs[0]] + fs[1..][..|fs[1..]| - 1];
  }

  /** The fields of one line, up to the end of its last field. */
  lemma {:induction false} ScanFields(o: Options, text: string, p: nat, fs: seq<string>, row: seq<string>, rows: seq<seq<string>>, q: char, d: char)
    returns (n: nat)
    requires Dialect(o, q, d) && |fs| >= 1
    requires o.trimFields ==> forall k :: 0 <= k < |fs| ==> IsTrimmed(fs[k])
    requires At(text, p, EncodeFields(fs, q, d))
    requires p + |EncodeFields(fs, q, d)| < |text| ==> IsNewline(text[p + |EncodeFields(fs, q, d)|])
    ensures Leads(o, text, Scan(p, false, "", row, rows), n, Scan(p + |EncodeFields(fs, q, d)|, false, fs[|fs| - 1], row + fs[..|fs| - 1], rows))
    decreases |fs|
  {
    if |fs| == 1 {
      n := ScanField(o, text, p, fs[0], row, rows, q, d);
      assert row + fs[..0] == row;
    } else {
      var p' := FieldsTail(o, text, p, fs, q, d);
      var k := ScanFields(o, text, p', fs[1..], row + [fs[0]], rows, q, d);
      n := ScanFieldsCons(o, text, p, p', fs, row, rows, q, d, k);
    }
  }

  /** The fields after the first start one delimiter past the first field and keep the preconditions of ScanFields. */
  lemma FieldsTail(o: Options, text: string, p: nat, fs: seq<string>, q: char, d: char) returns (p': nat)
    requires |fs| >= 2
    requires o.trimFields ==> forall k :: 0 <= k < |fs| ==> IsTrimmed(fs[k])
    requires At(text, p, EncodeFields(fs, q, d))
    requires p + |EncodeFields(fs, q, d)| < |text| ==> IsNewline(text[p + |EncodeFields(fs, q, d)|])
    ensures p' == p + |EncodeField(fs[0], q, d)| + 1
    ensures At(text, p, EncodeField(fs[0], q, d) + [d]) && At(text, p', EncodeFields(fs[1..], q, d))
    ensures p' + |EncodeFields(fs[1..], q, d)| == p + |EncodeFields(fs, q, d)|
    ensures o.trimFields ==> IsTrimmed(fs[0]) && forall k :: 0 <= k < |fs[1..]| ==> IsTrimmed(fs[1..][k])
    ensures p' + |EncodeFields(fs[1..], q, d)| < |text| ==> IsNewline(text[p' + |EncodeFields(fs[1..], q, d)|])
  {
    var first := EncodeField(fs[0], q, d);
    var rest := EncodeFields(fs[1..], q, d);
    p' := p + |first| + 1;
    assert EncodeFields(fs, q, d) == first + [d] + rest;
    AtConcat(text, p, first + [d], rest);
    assert o.trimFields ==> forall k :: 0 <= k < |fs[1..]| ==> IsTrimmed(fs[1..][k]);
  }

  /** The first field and its delimiter, followed by the scan of the remaining fields. */
  lemma ScanFieldsCons(o: Options, text: string, p: nat, p': nat, fs: seq<string>, row: seq<string>, rows: seq<seq<string>>,
                       q: char, d: char, k: nat)
    returns (n: nat)
    requires Dialect(o, q, d) && |fs| >= 2 && (o.trimFields ==> IsTrimmed(fs[0]))
    requires p' == p + |EncodeField(fs[0], q, d)| + 1 && At(text, p, EncodeField(fs[0], q, d) + [d])
    requires p' + |EncodeFields(fs[1..], q, d)| == p + |EncodeFields(fs, q, d)|
    requires Leads(o, text, Scan(p', false, "", row + [fs[0]], rows), k,
      Scan(p' + |EncodeFields(fs[1..], q, d)|, false, fs[1..][|fs[1..]| - 1], row + [fs[0]] + fs[1..][..|fs[1..]| - 1], rows))
    ensures Leads(o, text, Scan(p, false, "", row, rows), n, Scan(p + |EncodeFields(fs, q, d)|, false, fs[|fs| - 1], row + fs[..|fs| - 1], rows))
  {
    SplitFirst(row, fs);
    var m := ScanFieldThenDelimiter(o, text, p, fs[0], row, rows, q, d);
    Then(o, text, Scan(p, false, "", row, rows), m, Scan(p', false, "", row + [fs[0]], rows), k,
         Scan(p + |EncodeFields(fs, q, d)|, false, fs[|fs| - 1], row + fs[..|fs| - 1], rows));
    n := m + k;
  }

  /** One line: its fields, then the line end, which emits the row. */
  lemma ScanLine(o: Options, text: string, p: nat, fs: seq<string>, rows: seq<seq<string>>, q: char, d: char, eol: string)
    returns (n: nat)
    requires Dialect(o, q, d) && IsLineEnd(eol) && GoodRow(o, fs)
    requires At(text, p, EncodeFields(fs, q, d) + eol)
    requires eol == "\r" ==> NoLineFeedAt(text, p + |EncodeFields(fs, q, d) + eol|)
    ensures Leads(o, text, Scan(p, false, "", [], rows), n, Scan(p + |EncodeFields(fs, q, d) + eol|, false, "", [], rows + [fs]))
  {
    var line := EncodeFields(fs, q, d);
    var e := p + |line|;
    AtConcat(text, p, line, eol);
    AtChar(text, e, eol, 0);
    var m := ScanFields(o, text, p, fs, [], rows, q, d);
    var last := fs[|fs| - 1];
    var init := [] + fs[..|fs| - 1];
    assert init + [last] == fs;
    assert (init + [last])[|init|] == last;
    ProcessTrimmed(o, last);
    StepLineEnd(o, text, e, last, init, rows, eol);
    Then(o, text, Scan(p, false, "", [], rows), m, Scan(e, false, last, init, rows), 1, Scan(e + |eol|, false, "", [], rows + [fs]));
    n := m + 1;
  }

  lemma {:induction false} ScanLines(o: Options, text: string, p: nat, rs: seq<seq<string>>, done: seq<seq<string>>, q: char, d: char, eol: string)
    returns (n: nat)
    requires Dialect(o, q, d) && IsLineEnd(eol) && GoodRows(o, rs)
    requires At(text, p, EncodeRows(rs, q, d, eol))
    requires eol == "\r" ==> NoLineFeedAt(text, p + |EncodeRows(rs, q, d, eol)|)
    ensures Leads(o, text, Scan(p, false, "", [], done), n, Scan(p + |EncodeRows(rs, q, d, eol)|, false, "", [], done + rs))
    decreases |rs|
  {
    if rs == [] {
      assert done + rs == done;
      n := 0;
    } else {
      var line := EncodeFields(rs[0], q, d) + eol;
      var rest := EncodeRows(rs[1..], q, d, eol);
      assert At(text, p, line) && At(text, p + |line|, rest) && |line| + |rest| == |EncodeRows(rs, q, d, eol)| by {
        assert EncodeRows(rs, q, d, eol) == line + rest;
        AtConcat(text, p, line, rest);
      }
      assert GoodRows(o, rs[1..]) by {
        forall k | 0 <= k < |rs[1..]| ensures GoodRow(o, rs[1..][k]) {
          assert rs[1..][k] == rs[k + 1];
        }
      }
      assert done + [rs[0]] + rs[1..] == done + rs;
      if eol == "\r" && rest != [] {
        RowsNoLeadingLineFeed(rs[1..], q, d, eol);
        AtChar(text, p + |line|, rest, 0);
      }
      var m := ScanLine(o, text, p, rs[0], done, q, d, eol);
      var k := ScanLines(o, text, p + |line|, rs[1..], done + [rs[0]], q, d, eol);
      Then(o, text, Scan(p, false, "", [], done), m, Scan(p + |line|, false, "", [], done + [rs[0]]), k,
           Scan(p + |EncodeRows(rs, q, d, eol)|, false, "", [], done + rs));
      n := m + k;
    }
  }

  /**
   * Round trip: rows written one per line with quoting are read back
   * exactly, for any rows the scanner can emit under these options.
   */
  lemma RoundTrip(o: Options, rows: seq<seq<string>>, q: char, d: char, eol: string)
    requires Dialect(o, q, d) && IsLineEnd(eol) && GoodRows(o, rows)
    ensures Rows(o, EncodeRows(rows, q, d, eol)) == rows
  {
    var text := EncodeRows(rows, q, d, eol);
    AtSuffix(text, 0);
    assert text[0..] == text;
    assert [] + rows == rows;
    var n := ScanLines(o, text, 0, rows, [], q, d, eol);
    RunIterate(o, text, Start, n);
  }

  /**
   * Without a line end after the last row the same rows come back (a
   * trailing newline adds no row), unless that row is the single empty field.
   */
  lemma RoundTripWithoutFinalLineEnd(o: Options, rows: seq<seq<string>>, last: seq<string>, q: char, d: char, eol: string)
    requires Dialect(o, q, d) && IsLineEnd(eol) && GoodRows(o, rows) && GoodRow(o, last)
    requires last != [""]
    ensures Rows(o, EncodeRows(rows, q, d, eol) + EncodeFields(last, q, d)) == rows + [last]
  {
    var text := EncodeRows(rows, q, d, eol) + EncodeFields(last, q, d);
    var init := last[..|last| - 1];
    var f := last[|last| - 1];
    assert init + [f] == last;
    FinalizeGood(o, init, f, rows);
    var n := ScanRowsThenLast(o, text, EncodeRows(rows, q, d, eol), rows, last, q, d, eol);
    RunIterate(o, text, Scan(0, false, "", [], []), n);
  }

  /** The rows and an unterminated last row take the scanner to the end of the text with the last row pending. */
  lemma ScanRowsThenLast(o: Options, text: string, head: string, rows: seq<seq<string>>, last: seq<string>, q: char, d: char, eol: string)
    returns (n: nat)
    requires Dialect(o, q, d) && IsLineEnd(eol) && GoodRows(o, rows) && GoodRow(o, last)
    requires head == EncodeRows(rows, q, d, eol) && text == head + EncodeFields(last, q, d)
    ensures Leads(o, text, Scan(0, false, "", [], []), n, Scan(|text|, false, last[|last| - 1], last[..|last| - 1], rows))
  {
    var body := EncodeFields(last, q, d);
    assert At(text, 0, head) && At(text, 0 + |head|, body) by {
      AtSuffix(text, 0);
      assert text[0..] == text;
      AtConcat(text, 0, head, body);
    }
    if eol == "\r" && body != [] {
      FieldsNoLeadingLineFeed(last, q, d);
      AtChar(text, 0 + |head|, body, 0);
    }
    var m := ScanLines(o, text, 0, rows, [], q, d, eol);
    var k := ScanFields(o, text, 0 + |head|, last, [], [] + rows, q, d);
    n := RowsThenLast(o, text, |head|, body, rows, last, m, k);
  }

  /** A scan to the end of the complete lines, then one through the last line's fields, reaches the end of the text. */
  lemma RowsThenLast(o: Options, text: string, h: nat, body: string, rows: seq<seq<string>>, last: seq<string>, m: nat, k: nat)
    returns (n: nat)
    requires |last| >= 1 && |text| == h + |body|
    requires Leads(o, text, Scan(0, false, "", [], []), m, Scan(0 + h, false, "", [], [] + rows))
    requires Leads(o, text, Scan(0 + h, false, "", [], [] + rows), k,
      Scan(0 + h + |body|, false, last[|last| - 1], [] + last[..|last| - 1], [] + rows))
    ensures Leads(o, text, Scan(0, false, "", [], []), n, Scan(|text|, false, last[|last| - 1], last[..|last| - 1], rows))
  {
    assert Scan(0 + h + |body|, false, last[|last| - 1], [] + last[..|last| - 1], [] + rows)
      == Scan(|text|, false, last[|last| - 1], last[..|last| - 1], rows) by {
      assert [] + rows == rows && [] + last[..|last| - 1] == last[..|last| - 1];
    }
    Then(o, text, Scan(0, false, "", [], []), m, Scan(0 + h, false, "", [], [] + rows), k,
         Scan(0 + h + |body|, false, last[|last| - 1], [] + last[..|last| - 1], [] + rows));
    n := m + k;
  }

  /** The pending row is kept at the end when it is a good row and not the lone empty field. */
  lemma FinalizeGood(o: Options, row: seq<string>, field: string, rows: seq<seq<string>>)
    requires GoodRow(o, row + [field]) && (field != "" || row != [])
    ensures FinalizeLastRow(o, field, row, rows) == rows + [row + [field]]
  {
    assert (row + [field])[|row|] == field;
    ProcessTrimmed(o, field);
  }
}

/**
 * Decoding one `c` element of a worksheet (section 18.3.1.4 of ECMA-376
 * Part 1) by its `t` attribute and the text of its `v` child.
 */
module CellValues {
  import opened Wrappers
  import opened JsString
  import opened XmlTree

  /**
   * `XlsxCellValue`: string | number | boolean | null.  A number stays
   * opaque: `Num` carries the text that `Number.parseFloat` reads it from.
   */
  datatype CellValue = Str(s: string) | Num(literal: string) | Bool(b: bool) | Null

  /** The text of the `v` child of a cell, None when there is no `v` (`textContent` of an element is never null). */
  function ValueText(cell: Node): (text: Option<string>)
    ensures text.Some? <==> QueryFirst(cell, "v").Some?
  {
    match QueryFirst(cell, "v")
    case None => None
    case Some(v) => Some(TextContent(v))
  }

  /** `sharedStrings[index] ?? null`, where a NaN, negative or too large index reads undefined. */
  function SharedStringAt(sharedStrings: seq<string>, index: Option<int>): (v: CellValue)
    ensures v.Null? <==> index.None? || index.value < 0 || index.value >= |sharedStrings|
    ensures !v.Null? ==> v == Str(sharedStrings[index.value])
  {
    if index.Some? && 0 <= index.value < |sharedStrings| then Str(sharedStrings[index.value]) else Null
  }

  /** `parseCellValue(cellEl, sharedStrings)`. */
  function ParseCellValue(cell: Node, sharedStrings: seq<string>): CellValue
  {
    var t := GetAttribute(cell, "t");
    match ValueText(cell)
    case None => Null
    case Some(v) =>
      if t == Some("s") then SharedStringAt(sharedStrings, ParseInt(v))
      else if t == Some("b") then Bool(v == "1")
      else Num(v)
  }

  /** What each kind of cell decodes to. */
  lemma ParseCellValueCases(cell: Node, sharedStrings: seq<string>)
    ensures var r := ParseCellValue(cell, sharedStrings);
      var t := GetAttribute(cell, "t");
      var v := ValueText(cell);
      // no `v`: null whatever the type
      && (v.None? ==> r == Null)
      // shared string: an entry of the table, or null when the index is NaN or out of range
      && (v.Some? && t == Some("s") ==>
            (r.Null? <==> var i := ParseInt(v.value); i.None? || i.value < 0 || i.value >= |sharedStrings|))
      && (r.Str? ==>
            && t == Some("s")
            && exists i :: 0 <= i < |sharedStrings| && ParseInt(v.value) == Some(i) && r.s == sharedStrings[i])
      // boolean: true exactly for the text "1"
      && (v.Some? && t == Some("b") ==> r.Bool?)
      && (r.Bool? ==> t == Some("b") && (r.b <==> v == Some("1")))
      // any other type, or none: the number written in `v`
      && (v.Some? && t != Some("s") && t != Some("b") ==> r == Num(v.value))
      && (r.Num? ==> t != Some("s") && t != Some("b"))
  {
  }

  /**
   * A shared-string cell whose `v` holds the numeral of an index of the table
   * (possibly with surrounding whitespace) decodes to that entry.
   */
  lemma SharedStringCell(cell: Node, sharedStrings: seq<string>, pad: string, i: nat, tail: string)
    requires GetAttribute(cell, "t") == Some("s")
    requires ValueText(cell) == Some(pad + NatToDecimal(i) + tail)
    requires AllWhitespace(pad) && (tail == [] || !IsDigit(tail[0]))
    requires i < |sharedStrings|
    ensures ParseCellValue(cell, sharedStrings) == Str(sharedStrings[i])
  {
    ParseIntOfDecimal(pad, i, tail);
  }

  /** A shared-string cell whose index is past the end of the table decodes to null. */
  lemma SharedStringCellOutOfRange(cell: Node, sharedStrings: seq<string>, i: nat)
    requires GetAttribute(cell, "t") == Some("s")
    requires ValueText(cell) == Some(NatToDecimal(i))
    requires i >= |sharedStrings|
    ensures ParseCellValue(cell, sharedStrings) == Null
  {
    ParseIntOfDecimal("", i, "");
    assert "" + NatToDecimal(i) + "" == NatToDecimal(i);
  }
}

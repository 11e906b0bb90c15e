/**
 * The shared-string table of a workbook (`xl/sharedStrings.xml`): one string
 * per `si` item (section 18.4.8 of ECMA-376 Part 1), the text of all its
 * `t` runs joined, so that a rich-text item reads as its plain text.
 */
module SharedStrings {
  import opened Buffers
  import opened XmlTree

  /** The text of the runs ts, concatenated in order. */
  function RunsText(ts: seq<Node>): string
  {
    if ts == [] then "" else RunsText(ts[..|ts| - 1]) + TextContent(ts[|ts| - 1])
  }

  /** The string of one `si` item: the text of its `t` descendants in document order. */
  function ItemText(si: Node): string
  {
    RunsText(QueryAll(si, "t"))
  }

  /** One string per item, in order. */
  function ItemTexts(items: seq<Node>): (texts: seq<string>)
    ensures |texts| == |items|
    ensures forall i :: 0 <= i < |items| ==> texts[i] == ItemText(items[i])
  {
    if items == [] then [] else ItemTexts(items[..|items| - 1]) + [ItemText(items[|items| - 1])]
  }

  /** The table as `parseSharedStrings` builds it; an empty part gives an empty table. */
  function Table(parse: XmlParse, xml: Bytes): seq<string>
  {
    if xml == [] then [] else ItemTexts(FindAll(parse(xml), "si"))
  }

  /** `parseSharedStrings(xml)`: one string per `si` element of the document, in document order. */
  method ParseSharedStrings(parse: XmlParse, xml: Bytes) returns (result: seq<string>)
    ensures result == Table(parse, xml)
    ensures xml == [] ==> result == []
    ensures xml != [] ==> var items := FindAll(parse(xml), "si");
      |result| == |items| && forall i :: 0 <= i < |items| ==> result[i] == ItemText(items[i])
  {
    if xml == [] {
      return [];
    }
    var doc := parse(xml);
    var siNodes := FindAll(doc, "si");
    result := [];
    for k := 0 to |siNodes|
      invariant result == ItemTexts(siNodes[..k])
    {
      var tNodes := QueryAll(siNodes[k], "t");
      var text := "";
      for j := 0 to |tNodes|
        invariant text == RunsText(tNodes[..j])
      {
        ghost var upTo := tNodes[..j + 1];
        assert upTo[..|upTo| - 1] == tNodes[..j] && upTo[|upTo| - 1] == tNodes[j];
        text := text + TextContent(tNodes[j]);
      }
      assert tNodes[..|tNodes|] == tNodes;
      ghost var upTo := siNodes[..k + 1];
      assert upTo[..|upTo| - 1] == siNodes[..k] && upTo[|upTo| - 1] == siNodes[k];
      result := result + [text];
    }
    assert siNodes[..|siNodes|] == siNodes;
  }

  /** A `t` element holding the text s. */
  function Run(s: string): Node
  {
    Element("t", map[], [Text(s)])
  }

  /** A plain item `<si><t>s</t></si>` reads as s. */
  lemma PlainItem(s: string)
    ensures ItemText(Element("si", map[], [Run(s)])) == s
  {
    var si := Element("si", map[], [Run(s)]);
    assert Preorder(Run(s)) == [Run(s), Text(s)] by {
      assert PreorderFrom(Run(s), 0) == Preorder(Text(s)) + PreorderFrom(Run(s), 1);
    }
    assert PreorderFrom(si, 0) == Preorder(Run(s)) + PreorderFrom(si, 1);
    assert Preorder(si)[1..] == [Run(s), Text(s)];
    assert ElementsNamed([Text(s)], "t") == [];
    assert QueryAll(si, "t") == [Run(s)];
    assert TextContent(Run(s)) == s by {
      assert ConcatText([Text(s)]) == s;
    }
    assert RunsText([Run(s)]) == RunsText([]) + TextContent(Run(s));
  }
}

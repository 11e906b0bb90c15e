/**
 * `parse-workbook.ts`: the `sheet` entries of the workbook part and the
 * relationship record from `Id` to the part it targets.
 */
module Workbook {
  import opened Wrappers
  import opened Buffers
  import opened JsString
  import opened XmlTree
  import opened JsObject

  /** `SheetInfo`. */
  datatype SheetInfo = SheetInfo(name: string, sheetId: string, rId: string)

  /** A `sheet` element with truthy `name`, `sheetId` and `r:id` attributes. */
  predicate IsComplete(el: Node)
  {
    HasNonEmptyAttribute(el, "name") && HasNonEmptyAttribute(el, "sheetId") && HasNonEmptyAttribute(el, "r:id")
  }

  function InfoOf(el: Node): SheetInfo
    requires IsComplete(el)
  {
    SheetInfo(GetAttribute(el, "name").value, GetAttribute(el, "sheetId").value, GetAttribute(el, "r:id").value)
  }

  /** The entries of the complete elements, in document order. */
  function SheetInfos(els: seq<Node>): seq<SheetInfo>
  {
    if els == [] then []
    else
      var before := SheetInfos(els[..|els| - 1]);
      var el := els[|els| - 1];
      if IsComplete(el) then before + [InfoOf(el)] else before
  }

  function Sheets(parse: XmlParse, workbookXml: Bytes): seq<SheetInfo>
  {
    SheetInfos(FindAll(parse(workbookXml), "sheet"))
  }

  lemma SheetInfosSnoc(els: seq<Node>, el: Node)
    ensures SheetInfos(els + [el]) == if IsComplete(el) then SheetInfos(els) + [InfoOf(el)] else SheetInfos(els)
  {
    assert (els + [el])[..|els|] == els;
  }

  lemma SheetInfosExtend(els: seq<Node>, k: nat)
    requires k < |els|
    ensures SheetInfos(els[..k + 1]) == if IsComplete(els[k]) then SheetInfos(els[..k]) + [InfoOf(els[k])] else SheetInfos(els[..k])
  {
    assert els[..k + 1] == els[..k] + [els[k]];
    SheetInfosSnoc(els[..k], els[k]);
  }

  /** `parseWorkbook(workbookXmlRaw)`. */
  method ParseWorkbook(parse: XmlParse, workbookXml: Bytes) returns (sheets: seq<SheetInfo>)
    ensures sheets == Sheets(parse, workbookXml)
    ensures |sheets| <= |FindAll(parse(workbookXml), "sheet")|
  {
    var sheetElements := FindAll(parse(workbookXml), "sheet");
    sheets := [];
    for k := 0 to |sheetElements|
      invariant sheets == SheetInfos(sheetElements[..k])
    {
      var sheetEl := sheetElements[k];
      SheetInfosExtend(sheetElements, k);
      var name := GetAttribute(sheetEl, "name");
      var sheetId := GetAttribute(sheetEl, "sheetId");
      var rId := GetAttribute(sheetEl, "r:id");
      if name.Some? && name.value != "" && sheetId.Some? && sheetId.value != "" && rId.Some? && rId.value != "" {
        sheets := sheets + [SheetInfo(name.value, sheetId.value, rId.value)];
      }
    }
    assert sheetElements[..|sheetElements|] == sheetElements;
    SheetInfosLength(sheetElements);
  }

  lemma {:induction false} SheetInfosLength(els: seq<Node>)
    ensures |SheetInfos(els)| <= |els|
  {
    if els != [] {
      SheetInfosLength(els[..|els| - 1]);
    }
  }

  /** Document order: the entries of two runs of elements are the entries of the first, then those of the second. */
  lemma {:induction false} SheetInfosAppend(a: seq<Node>, b: seq<Node>)
    ensures SheetInfos(a + b) == SheetInfos(a) + SheetInfos(b)
    decreases |b|
  {
    if b == [] {
      assert a + b == a;
    } else {
      var b' := b[..|b| - 1];
      assert a + b == (a + b') + [b[|b| - 1]];
      SheetInfosSnoc(a + b', b[|b| - 1]);
      SheetInfosSnoc(b', b[|b| - 1]);
      assert b' + [b[|b| - 1]] == b;
      SheetInfosAppend(a, b');
    }
  }

  /** One element contributes its entry exactly when all three attributes are truthy. */
  lemma SheetInfosSingle(el: Node)
    ensures SheetInfos([el]) == if IsComplete(el) then [InfoOf(el)] else []
  {
    SheetInfosSnoc([], el);
    assert [] + [el] == [el];
  }

  /** Every entry has non-empty fields and comes from an element of the document. */
  lemma {:induction false} SheetInfosFromElements(els: seq<Node>)
    ensures forall s :: s in SheetInfos(els) ==>
      s.name != "" && s.sheetId != "" && s.rId != ""
      && exists el :: el in els && IsComplete(el) && InfoOf(el) == s
  {
    if els != [] {
      SheetInfosFromElements(els[..|els| - 1]);
      assert forall el :: el in els[..|els| - 1] ==> el in els;
    }
  }

  /** `target.startsWith("worksheets/") ? "xl/" + target : target`. */
  function NormalizeTarget(target: string): string
  {
    if StartsWith(target, "worksheets/") then "xl/" + target else target
  }

  /**
   * Only targets relative to "worksheets/" change, by the prefix "xl/"; no
   * normalised path starts with "worksheets/", so normalising twice changes nothing.
   */
  lemma NormalizeTargetMeaning(target: string)
    ensures StartsWith(target, "worksheets/") <==> NormalizeTarget(target) != target
    ensures NormalizeTarget(target) != target ==> NormalizeTarget(target) == "xl/" + target
    ensures !StartsWith(NormalizeTarget(target), "worksheets/")
    ensures NormalizeTarget(NormalizeTarget(target)) == NormalizeTarget(target)
  {
    var p := NormalizeTarget(target);
    if StartsWith(target, "worksheets/") {
      assert |p| > |target|;
      assert p[..11] == "xl/workshee";
    }
  }

  type WorkbookRels = Record<string>

  /** A `Relationship` element with truthy `Id` and `Target`. */
  predicate IsLink(el: Node)
  {
    HasNonEmptyAttribute(el, "Id") && HasNonEmptyAttribute(el, "Target")
  }

  /** `rels[id] = normalised target` for each link, in order. */
  function Links(els: seq<Node>): WorkbookRels
  {
    if els == [] then []
    else
      var before := Links(els[..|els| - 1]);
      var el := els[|els| - 1];
      if IsLink(el) then Put(before, GetAttribute(el, "Id").value, NormalizeTarget(GetAttribute(el, "Target").value))
      else before
  }

  function Rels(parse: XmlParse, relsXml: Bytes): WorkbookRels
  {
    Links(FindAll(parse(relsXml), "Relationship"))
  }

  lemma LinksSnoc(els: seq<Node>, el: Node)
    ensures Links(els + [el]) ==
      if IsLink(el) then Put(Links(els), GetAttribute(el, "Id").value, NormalizeTarget(GetAttribute(el, "Target").value))
      else Links(els)
  {
    assert (els + [el])[..|els|] == els;
  }

  lemma LinksExtend(els: seq<Node>, k: nat)
    requires k < |els|
    ensures Links(els[..k + 1]) ==
      if IsLink(els[k]) then Put(Links(els[..k]), GetAttribute(els[k], "Id").value, NormalizeTarget(GetAttribute(els[k], "Target").value))
      else Links(els[..k])
  {
    assert els[..k + 1] == els[..k] + [els[k]];
    LinksSnoc(els[..k], els[k]);
  }

  /** `parseWorkbookRels(workbookRelsXmlRaw)`. */
  method ParseWorkbookRels(parse: XmlParse, relsXml: Bytes) returns (rels: WorkbookRels)
    ensures rels == Rels(parse, relsXml)
    ensures DistinctKeys(rels)
  {
    var relEls := FindAll(parse(relsXml), "Relationship");
    rels := [];
    for k := 0 to |relEls|
      invariant rels == Links(relEls[..k])
      invariant DistinctKeys(rels)
    {
      var rel := relEls[k];
      LinksExtend(relEls, k);
      var id := GetAttribute(rel, "Id");
      var target := GetAttribute(rel, "Target");
      if id.Some? && id.value != "" && target.Some? && target.value != "" {
        var path := if StartsWith(target.value, "worksheets/") then "xl/" + target.value else target.value;
        PutKeepsKeysDistinct(rels, id.value, path);
        rels := Put(rels, id.value, path);
      }
    }
    assert relEls[..|relEls|] == relEls;
  }

  /** The last link among els whose Id is id. */
  function LastLinkWithId(els: seq<Node>, id: string): (l: Option<Node>)
    ensures l.Some? <==> exists i :: 0 <= i < |els| && IsLink(els[i]) && GetAttribute(els[i], "Id") == Some(id)
    ensures l.Some? ==> l.value in els && IsLink(l.value) && GetAttribute(l.value, "Id") == Some(id)
  {
    if els == [] then None
    else if IsLink(els[|els| - 1]) && GetAttribute(els[|els| - 1], "Id") == Some(id) then Some(els[|els| - 1])
    else
      var l := LastLinkWithId(els[..|els| - 1], id);
      assert forall i :: 0 <= i < |els| - 1 ==> els[..|els| - 1][i] == els[i];
      l
  }

  /** Each Id maps to the normalised target of the last link carrying it; Ids of no link are absent. */
  lemma {:induction false} LinksGet(els: seq<Node>, id: string)
    ensures Get(Links(els), id) ==
      match LastLinkWithId(els, id)
      case None => None
      case Some(l) => Some(NormalizeTarget(GetAttribute(l, "Target").value))
  {
    if els != [] {
      var el := els[|els| - 1];
      LinksGet(els[..|els| - 1], id);
      if IsLink(el) {
        GetPut(Links(els[..|els| - 1]), GetAttribute(el, "Id").value, NormalizeTarget(GetAttribute(el, "Target").value), id);
      }
    }
  }
}

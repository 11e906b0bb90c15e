/**
 * The parsed XML document the SpreadsheetML readers query.  Parsing itself
 * (`XmlParser`: UTF-8 decoding and `DOMParser`) is not modelled: a reader
 * receives it as a function from bytes to the document element.  The
 * queries are the few DOM calls the readers make: `querySelectorAll` and
 * `querySelector` with a bare element name, `getAttribute` and
 * `textContent`.
 */
module XmlTree {
  import opened Wrappers
  import opened Buffers

  /**
   * An element with its local name, its attributes keyed by qualified name
   * (such as "r:id") and its children in document order; or a text node.
   */
  datatype Node = Element(name: string, attrs: map<string, string>, children: seq<Node>) | Text(data: string)

  /** `new XmlParser(bytes)`: the document element of the parsed bytes. */
  type XmlParse = Bytes -> Node

  /** n followed by all of its descendants, in document order. */
  function Preorder(n: Node): (r: seq<Node>)
    ensures |r| >= 1 && r[0] == n
    decreases n, 1
  {
    [n] + (if n.Element? then PreorderFrom(n, 0) else [])
  }

  /** The subtrees of the children of n from the i-th on, in document order. */
  function PreorderFrom(n: Node, i: nat): seq<Node>
    requires n.Element? && i <= |n.children|
    decreases n, 0, |n.children| - i
  {
    if i == |n.children| then [] else Preorder(n.children[i]) + PreorderFrom(n, i + 1)
  }

  predicate IsElementNamed(n: Node, name: string) { n.Element? && n.name == name }

  /** The elements of ns whose local name is name, in order. */
  function ElementsNamed(ns: seq<Node>, name: string): (r: seq<Node>)
    ensures |r| <= |ns|
    ensures forall i :: 0 <= i < |r| ==> IsElementNamed(r[i], name)
  {
    if ns == [] then []
    else (if IsElementNamed(ns[0], name) then [ns[0]] else []) + ElementsNamed(ns[1..], name)
  }

  /** `element.querySelectorAll(name)`: the descendants of n named name, in document order. */
  function QueryAll(n: Node, name: string): seq<Node>
  {
    ElementsNamed(Preorder(n)[1..], name)
  }

  /** `document.querySelectorAll(name)`: like QueryAll, but the document element itself can match. */
  function FindAll(doc: Node, name: string): seq<Node>
  {
    ElementsNamed(Preorder(doc), name)
  }

  /** `element.querySelector(name)`: the first descendant named name. */
  function QueryFirst(n: Node, name: string): Option<Node>
  {
    var all := QueryAll(n, name);
    if all == [] then None else Some(all[0])
  }

  /** `element.getAttribute(qname)`, None for null. */
  function GetAttribute(n: Node, qname: string): Option<string>
  {
    if n.Element? && qname in n.attrs then Some(n.attrs[qname]) else None
  }

  /** The attribute is present and not "": JavaScript's truthiness of `getAttribute`. */
  predicate HasNonEmptyAttribute(n: Node, qname: string)
  {
    GetAttribute(n, qname).Some? && GetAttribute(n, qname).value != ""
  }

  /** The text of the text nodes among ns, concatenated in order. */
  function ConcatText(ns: seq<Node>): string
  {
    if ns == [] then "" else (if ns[0].Text? then ns[0].data else "") + ConcatText(ns[1..])
  }

  /** `node.textContent`: the text of every text node at or below n, in document order; never null for an element. */
  function TextContent(n: Node): string
  {
    ConcatText(Preorder(n))
  }

  lemma {:induction false} ElementsNamedAppend(a: seq<Node>, b: seq<Node>, name: string)
    ensures ElementsNamed(a + b, name) == ElementsNamed(a, name) + ElementsNamed(b, name)
  {
    if a == [] {
      assert a + b == b;
    } else {
      assert (a + b)[0] == a[0];
      assert (a + b)[1..] == a[1..] + b;
      ElementsNamedAppend(a[1..], b, name);
    }
  }

  /** A leaf element has no descendants, so every query on it is empty. */
  lemma LeafHasNoDescendants(n: Node, name: string)
    requires n.Element? && n.children == []
    ensures QueryAll(n, name) == [] && QueryFirst(n, name) == None
  {
    assert Preorder(n) == [n];
  }

  /** An element with a single child lists itself, then the child's subtree. */
  lemma PreorderOfOnlyChild(n: Node)
    requires n.Element? && |n.children| == 1
    ensures Preorder(n) == [n] + Preorder(n.children[0])
  {
    assert PreorderFrom(n, 1) == [];
  }
}

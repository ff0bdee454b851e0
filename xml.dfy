/** The parsed XML document the client reads, as an element tree, and the two selector
    queries it uses: `querySelector` (first match) and `querySelectorAll` (all matches in
    document order). Tag names compare case-sensitively, as they do in an XML document.
    A document is its root element. */
module Xml {
  import opened Common

  datatype Node = Elem(element: Element) | Text(data: string)

  datatype Element = Element(tag: string, attrs: map<string, string>, children: seq<Node>)

  /** `element.getAttribute(name)`: `None` stands for `null`. */
  function Attr(e: Element, name: string): Option<string>
  {
    if name in e.attrs then Some(e.attrs[name]) else None
  }

  /** The elements in the subtrees of `p.children[i..]`, in document (pre-)order. */
  function Below(p: Element, i: nat): seq<Element>
    decreases p, |p.children| - i
  {
    if i >= |p.children| then []
    else
      (match p.children[i]
         case Elem(c) => [c] + Below(c, 0)
         case Text(_) => [])
      + Below(p, i + 1)
  }

  /** Every descendant element of `e` (not `e` itself), in document order. */
  function Descendants(e: Element): seq<Element>
  {
    Below(e, 0)
  }

  function WithTag(es: seq<Element>, tag: string): (r: seq<Element>)
    ensures forall x :: x in r ==> x in es && x.tag == tag
    ensures forall x :: x in es && x.tag == tag ==> x in r
  {
    if es == [] then []
    else (if es[0].tag == tag then [es[0]] else []) + WithTag(es[1..], tag)
  }

  lemma {:induction false} WithTagAppend(xs: seq<Element>, ys: seq<Element>, tag: string)
    ensures WithTag(xs + ys, tag) == WithTag(xs, tag) + WithTag(ys, tag)
  {
    if xs == [] {
      assert xs + ys == ys;
    } else {
      assert (xs + ys)[1..] == xs[1..] + ys;
      WithTagAppend(xs[1..], ys, tag);
    }
  }

  /** `e.querySelectorAll(tag)`: the descendants of `e` with that tag, in document order. */
  function SelectAll(e: Element, tag: string): seq<Element>
  {
    WithTag(Descendants(e), tag)
  }

  /** `document.querySelectorAll(tag)`: on a document the root element is a candidate too. */
  function DocSelectAll(root: Element, tag: string): seq<Element>
  {
    WithTag([root] + Descendants(root), tag)
  }

  /** The depth-first search of `querySelector` over the subtrees of `p.children[i..]`,
      stopping at the first match. */
  function FirstBelow(p: Element, i: nat, tag: string): Option<Element>
    decreases p, |p.children| - i
  {
    if i >= |p.children| then None
    else
      match p.children[i]
      case Text(_) => FirstBelow(p, i + 1, tag)
      case Elem(c) =>
        if c.tag == tag then Some(c)
        else
          match FirstBelow(c, 0, tag)
          case Some(d) => Some(d)
          case None => FirstBelow(p, i + 1, tag)
  }

  /** `e.querySelector(tag)`. */
  function SelectFirst(e: Element, tag: string): Option<Element>
  {
    FirstBelow(e, 0, tag)
  }

  /** `document.querySelector(tag)`. */
  function DocSelectFirst(root: Element, tag: string): Option<Element>
  {
    if root.tag == tag then Some(root) else SelectFirst(root, tag)
  }

  /** The search stops exactly at the first element the full listing holds, and finds
      nothing exactly when the listing is empty. */
  lemma {:induction false} FirstBelowIsFirstOfAll(p: Element, i: nat, tag: string)
    ensures FirstBelow(p, i, tag).None? <==> WithTag(Below(p, i), tag) == []
    ensures FirstBelow(p, i, tag).Some? ==>
              FirstBelow(p, i, tag).value == WithTag(Below(p, i), tag)[0]
    decreases p, |p.children| - i
  {
    if i < |p.children| {
      FirstBelowIsFirstOfAll(p, i + 1, tag);
      match p.children[i]
      case Text(_) =>
        assert Below(p, i) == Below(p, i + 1);
      case Elem(c) =>
        FirstBelowIsFirstOfAll(c, 0, tag);
        assert Below(p, i) == [c] + Below(c, 0) + Below(p, i + 1);
        WithTagAppend([c] + Below(c, 0), Below(p, i + 1), tag);
        WithTagAppend([c], Below(c, 0), tag);
    }
  }

  /** `querySelector` returns the first element `querySelectorAll` lists, and `null` exactly
      when that list is empty, on an element and on a document. */
  lemma SelectFirstIsFirstOfAll(e: Element, tag: string)
    ensures SelectFirst(e, tag).None? <==> SelectAll(e, tag) == []
    ensures SelectFirst(e, tag).Some? ==> SelectFirst(e, tag).value == SelectAll(e, tag)[0]
    ensures DocSelectFirst(e, tag).None? <==> DocSelectAll(e, tag) == []
    ensures DocSelectFirst(e, tag).Some? ==> DocSelectFirst(e, tag).value == DocSelectAll(e, tag)[0]
  {
    FirstBelowIsFirstOfAll(e, 0, tag);
    WithTagAppend([e], Descendants(e), tag);
  }

  /** The text of the text nodes in the subtrees of `p.children[i..]`, in document order. */
  function TextBelow(p: Element, i: nat): string
    decreases p, |p.children| - i
  {
    if i >= |p.children| then ""
    else
      (match p.children[i]
         case Elem(c) => TextBelow(c, 0)
         case Text(t) => t)
      + TextBelow(p, i + 1)
  }

  /** `e.textContent`. */
  function TextContent(e: Element): string
  {
    TextBelow(e, 0)
  }

  /** `e.querySelector(tag)?.getAttribute(attr)`: `None` when there is no such descendant
      (`undefined`) or it lacks the attribute (`null`). */
  function DescendantAttr(e: Element, tag: string, attr: string): (r: Option<string>)
    ensures r.Some? <==> SelectFirst(e, tag).Some? && attr in SelectFirst(e, tag).value.attrs
    ensures r.Some? ==> r.value == SelectFirst(e, tag).value.attrs[attr]
  {
    match SelectFirst(e, tag)
    case None => None
    case Some(d) => Attr(d, attr)
  }
}

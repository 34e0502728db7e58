/** The parsed DXL document as ElementTree presents it: every element has a
    tag in Clark notation (`{namespace}local`), attributes, the text before
    its first child, its children in document order, and the tail text that
    follows its end tag. A missing `text`/`tail` (Python `None`) is "". */
module Dxl {
  import opened Wrappers
  import opened Text

  datatype Element = Element(
    tag: string,
    attrs: map<string, string>,
    text: string,
    children: seq<Element>,
    tail: string)

  const DxlNs: string := "{http://www.lotus.com/dxl}"

  /** The Clark name of a DXL tag, what `"dxl:" + local` with the DXL namespace map denotes. */
  function Q(local: string): string { DxlNs + local }

  /** `_local_tag` of the walkers: the part after the first `}` when the tag has one. */
  function LocalTag(tag: string): (r: string)
    ensures '}' !in tag ==> r == tag
    ensures '}' in tag ==> r == tag[IndexOf(tag, '}') + 1..]
  {
    if '}' in tag then tag[IndexOf(tag, '}') + 1..] else tag
  }

  lemma LocalTagOfQ(local: string)
    requires '}' !in local
    ensures LocalTag(Q(local)) == local
  {
    var t := Q(local);
    assert t[|DxlNs| - 1] == '}';
    assert '}' !in DxlNs[..|DxlNs| - 1];
    assert IndexOf(t, '}') == |DxlNs| - 1 by {
      assert t[..|DxlNs| - 1] == DxlNs[..|DxlNs| - 1];
    }
    assert t[|DxlNs|..] == local;
  }

  /** `el.get(k) or ""`: a missing attribute reads as the empty string. */
  function Attr(e: Element, k: string): string {
    if k in e.attrs then e.attrs[k] else ""
  }

  /** Python's `a or b` on strings. */
  function Or(a: string, b: string): string { if a != "" then a else b }

  /** All elements strictly below `e`, in document order (what `.//` walks). */
  function Descendants(e: Element): seq<Element>
    decreases e, 1
  {
    DescendantsOf(e.children)
  }

  function DescendantsOf(cs: seq<Element>): seq<Element>
    decreases cs, 0
  {
    if cs == [] then [] else [cs[0]] + Descendants(cs[0]) + DescendantsOf(cs[1..])
  }

  function WithTag(es: seq<Element>, tag: string): (r: seq<Element>)
    ensures |r| <= |es|
    ensures forall x :: x in r ==> x in es && x.tag == tag
    ensures forall x :: x in es && x.tag == tag ==> x in r
  {
    if es == [] then []
    else (if es[0].tag == tag then [es[0]] else []) + WithTag(es[1..], tag)
  }

  function FirstOf(es: seq<Element>): Option<Element> {
    if es == [] then None else Some(es[0])
  }

  /** `e.findall(".//dxl:" + local)`: every descendant with that tag, in document order. */
  function FindAllBelow(e: Element, tag: string): seq<Element> {
    WithTag(Descendants(e), tag)
  }

  /** `e.find(".//dxl:" + local)`: the first such descendant. */
  function FindBelow(e: Element, tag: string): Option<Element> {
    FirstOf(FindAllBelow(e, tag))
  }

  /** `e.findall("dxl:" + local)`: the direct children with that tag. */
  function ChildrenTagged(e: Element, tag: string): seq<Element> {
    WithTag(e.children, tag)
  }

  /** `e.find("dxl:" + local)`: the first direct child with that tag. */
  function FindChild(e: Element, tag: string): Option<Element> {
    FirstOf(ChildrenTagged(e, tag))
  }

  function ItemsNamed(es: seq<Element>, name: string): (r: seq<Element>)
    ensures forall x :: x in r ==> x in es
  {
    if es == [] then []
    else (if es[0].tag == Q("item") && "name" in es[0].attrs && es[0].attrs["name"] == name
          then [es[0]] else []) + ItemsNamed(es[1..], name)
  }

  /** `root.find(".//dxl:item[@name='NAME']")`. */
  function FindItem(root: Element, name: string): Option<Element> {
    FirstOf(ItemsNamed(Descendants(root), name))
  }

  /** `"".join(e.itertext())`: the element's text, then each child's text
      followed by that child's tail; the element's own tail is not included. */
  function ItText(e: Element): string
    decreases e, 1
  {
    e.text + ItTextOf(e.children)
  }

  function ItTextOf(cs: seq<Element>): string
    decreases cs, 0
  {
    if cs == [] then "" else ItText(cs[0]) + cs[0].tail + ItTextOf(cs[1..])
  }
}

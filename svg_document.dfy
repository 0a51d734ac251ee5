/**
 * An SVG document as the colouring code sees it: its elements in document
 * order, each with a tag name, an attribute map, the index of its parent
 * element (-1 for the root) and its text content.  A parent always comes
 * before its children.  The mutable `Document` holds such a sequence and
 * changes it one attribute at a time.
 */
module SvgDocument {
  import opened JsValues

  datatype Element = Element(tag: string, attrs: map<string, string>, parent: int, text: string)

  /** The root comes first and has no parent; every other element's parent precedes it. */
  predicate WellFormed(doc: seq<Element>)
  {
    forall i :: 0 <= i < |doc| ==> -1 <= doc[i].parent < i && (i > 0 ==> doc[i].parent >= 0)
  }

  /** `e.getAttribute(name)`. */
  function Attr(e: Element, name: string): (v: Option<string>)
    ensures v.Some? <==> name in e.attrs
    ensures v.Some? ==> v.value == e.attrs[name]
  {
    if name in e.attrs then Some(e.attrs[name]) else None
  }

  /** `e.setAttribute(name, value)`. */
  function SetAttr(e: Element, name: string, value: string): (e': Element)
    ensures Attr(e', name) == Some(value)
    ensures forall other :: other != name ==> Attr(e', other) == Attr(e, other)
    ensures e'.tag == e.tag && e'.parent == e.parent && e'.text == e.text
  {
    e.(attrs := e.attrs[name := value])
  }

  /** `e.removeAttribute(name)`. */
  function RemoveAttr(e: Element, name: string): (e': Element)
    ensures Attr(e', name) == None
    ensures forall other :: other != name ==> Attr(e', other) == Attr(e, other)
    ensures e'.tag == e.tag && e'.parent == e.parent && e'.text == e.text
  {
    e.(attrs := e.attrs - {name})
  }

  /** Two documents with the same elements, tags and parents, element by element. */
  predicate SameShape(d1: seq<Element>, d2: seq<Element>)
  {
    |d1| == |d2| && forall i :: 0 <= i < |d1| ==> d1[i].tag == d2[i].tag && d1[i].parent == d2[i].parent && d1[i].text == d2[i].text
  }

  /** The positions of the elements tagged `tag`, in document order: `querySelectorAll(tag)`. */
  function Tagged(doc: seq<Element>, tag: string): (ps: seq<nat>)
    ensures forall k :: 0 <= k < |ps| ==> ps[k] < |doc| && doc[ps[k]].tag == tag
    ensures forall i :: 0 <= i < |doc| && doc[i].tag == tag ==> i in ps
    ensures forall k, l :: 0 <= k < l < |ps| ==> ps[k] < ps[l]
  {
    if |doc| == 0 then []
    else
      var ps := Tagged(doc[..|doc| - 1], tag);
      if doc[|doc| - 1].tag == tag then ps + [|doc| - 1] else ps
  }

  /** Attribute writes keep the positions of every tag. */
  lemma {:induction false} TaggedSameShape(d1: seq<Element>, d2: seq<Element>, tag: string)
    requires SameShape(d1, d2)
    ensures Tagged(d1, tag) == Tagged(d2, tag)
    decreases |d1|
  {
    if |d1| > 0 {
      TaggedSameShape(d1[..|d1| - 1], d2[..|d2| - 1], tag);
    }
  }

  /** The first element below the root tagged `tag`: `documentElement.getElementsByTagName(tag)[0]`. */
  function FirstBelowRoot(doc: seq<Element>, tag: string, from: nat): (r: Option<nat>)
    requires 1 <= from
    ensures r.Some? ==> from <= r.value < |doc| && doc[r.value].tag == tag
    ensures r.Some? ==> forall i :: from <= i < r.value ==> doc[i].tag != tag
    ensures r.None? ==> forall i :: from <= i < |doc| ==> doc[i].tag != tag
    decreases |doc| - from
  {
    if from >= |doc| then None
    else if doc[from].tag == tag then Some(from)
    else FirstBelowRoot(doc, tag, from + 1)
  }

  /** The first element whose `id` is `id`, in document order: `querySelector("#" + id)`. */
  function FindById(doc: seq<Element>, id: string): (r: Option<nat>)
    ensures r.Some? ==> r.value < |doc| && Attr(doc[r.value], "id") == Some(id)
    ensures r.Some? ==> forall i :: 0 <= i < r.value ==> Attr(doc[i], "id") != Some(id)
    ensures r.None? ==> forall i :: 0 <= i < |doc| ==> Attr(doc[i], "id") != Some(id)
  {
    if |doc| == 0 then None
    else
      var r := FindById(doc[..|doc| - 1], id);
      if r.Some? then r
      else if Attr(doc[|doc| - 1], "id") == Some(id) then Some(|doc| - 1)
      else None
  }

  /** A parsed document whose elements change only through attribute writes. */
  class Document {
    var elements: seq<Element>

    ghost predicate Valid()
      reads this
    {
      WellFormed(elements)
    }

    constructor (parsed: seq<Element>)
      requires WellFormed(parsed)
      ensures Valid() && elements == parsed
    {
      elements := parsed;
    }

    /** `element.setAttribute(name, value)` on the element at `i`. */
    method SetAttribute(i: nat, name: string, value: string)
      requires Valid() && i < |elements|
      modifies this
      ensures Valid() && SameShape(old(elements), elements)
      ensures elements == old(elements)[i := SetAttr(old(elements)[i], name, value)]
    {
      elements := elements[i := SetAttr(elements[i], name, value)];
    }

    /** `element.removeAttribute(name)` on the element at `i`. */
    method RemoveAttribute(i: nat, name: string)
      requires Valid() && i < |elements|
      modifies this
      ensures Valid() && SameShape(old(elements), elements)
      ensures elements == old(elements)[i := RemoveAttr(old(elements)[i], name)]
    {
      elements := elements[i := RemoveAttr(elements[i], name)];
    }
  }
}

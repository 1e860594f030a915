/** The manifest document as an abstract XML tree: each element has a name,
    a map of attributes and an ordered list of child elements. Text parsing
    and writing by XDocument are not part of this model. */
module Xml {
  import opened Common

  datatype Element = Element(name: string, attributes: map<string, string>, children: seq<Element>)

  /** XElement.Attribute(key), null when absent. */
  function Attribute(e: Element, key: string): (r: Option<string>)
    ensures r.Some? <==> key in e.attributes
    ensures r.Some? ==> r.value == e.attributes[key]
  {
    if key in e.attributes then Some(e.attributes[key]) else None
  }

  /** XContainer.Elements(name): the children with that name, in document order. */
  function Elements(children: seq<Element>, name: string): (r: seq<Element>)
    ensures |r| <= |children|
    ensures forall i :: 0 <= i < |r| ==> r[i].name == name && r[i] in children
    ensures forall c :: c in children && c.name == name ==> c in r
    ensures (forall i :: 0 <= i < |children| ==> children[i].name == name) ==> r == children
  {
    if children == [] then []
    else if children[0].name == name then [children[0]] + Elements(children[1..], name)
    else Elements(children[1..], name)
  }

  /** Selection keeps document order: the selected children of a + b are
      those of a followed by those of b. */
  lemma {:induction false} ElementsAppend(a: seq<Element>, b: seq<Element>, name: string)
    ensures Elements(a + b, name) == Elements(a, name) + Elements(b, name)
    decreases |a|
  {
    if a != [] {
      assert (a + b)[0] == a[0];
      assert (a + b)[1..] == a[1..] + b;
      ElementsAppend(a[1..], b, name);
    } else {
      assert a + b == b;
    }
  }
}

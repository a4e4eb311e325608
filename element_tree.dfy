/** An already-parsed XML element, as `xml.etree.ElementTree` hands it to the codec. */
module ElementTree {
  import opened Base

  /** `tag`, the attribute dictionary, `text` (`None` when the element has no text) and the child elements in document order. */
  datatype Element = Element(tag: string, attrs: map<string, string>, text: Option<string>, children: seq<Element>)

  /** `element.get(key)`. */
  function Get(e: Element, key: string): Option<string> {
    if key in e.attrs then Some(e.attrs[key]) else None
  }

  /** An element with attributes and children and no text, as `ET.SubElement` followed by `set` calls produces it. */
  function SubElement(tag: string, attrs: map<string, string>, children: seq<Element>): Element {
    Element(tag, attrs, None, children)
  }
}

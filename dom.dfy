/**
 * The host the builder talks to: JavaScript values as far as the builder
 * inspects them, and an abstract DOM element whose fields are the parts of a
 * node the builder writes (class list, attributes, properties, inline style,
 * dataset, listeners, children), each kept as a separate field.  Each host
 * call the builder makes is a method of Element; the links a browser keeps
 * between the attribute list and the class list, style and dataset are not
 * modelled.
 */
module Dom {
  import opened Wrappers

  /** Namespace of an element made by document.createElement in an HTML document. */
  const HtmlNamespace := "http://www.w3.org/1999/xhtml"

  /**
   * A JavaScript value.  Numbers are integers (no NaN, no -0); Elem is a DOM
   * element; Obj stands for any other object (a function, a plain object, a
   * text node, or an array such as a nested [tag, options, children] item).
   */
  datatype Value =
    | Undefined
    | Null
    | Bool(b: bool)
    | Num(n: int)
    | Str(s: string)
    | Obj(id: nat)
    | Elem(e: Element)

  /** JavaScript truthiness: undefined, null, false, 0 and "" are falsy. */
  predicate Truthy(v: Value)
    ensures !Truthy(v) <==> v == Undefined || v == Null || v == Bool(false) || v == Num(0) || v == Str("")
  {
    match v
    case Undefined => false
    case Null => false
    case Bool(b) => b
    case Num(n) => n != 0
    case Str(s) => s != ""
    case Obj(_) => true
    case Elem(_) => true
  }

  predicate Nullish(v: Value) {
    v.Undefined? || v.Null?
  }

  /** addEventListener throws a TypeError for a handler that is a primitive other than null/undefined. */
  predicate AcceptedHandler(v: Value) {
    Nullish(v) || v.Obj? || v.Elem?
  }

  predicate IsAsciiWhitespace(c: char) {
    c == ' ' || c == '\t' || c == '\n' || c == '\r' || c == '\U{C}'
  }

  /**
   * A name the host accepts as a class token or a tag name: not empty and
   * free of ASCII whitespace (classList.add throws otherwise).
   */
  predicate ValidToken(s: string) {
    s != [] && forall i :: 0 <= i < |s| ==> !IsAsciiWhitespace(s[i])
  }

  predicate Distinct<T(==)>(s: seq<T>) {
    forall i, j :: 0 <= i < j < |s| ==> s[i] != s[j]
  }

  /** An attribute's value with the namespace it was set in (None: no namespace). */
  datatype Attr = Attr(namespace: Option<string>, value: Value)

  datatype Listener = Listener(event: string, handler: Value, capture: bool)

  /** A child node: an element (by identity) or a text node (by content). */
  datatype Child = ElementNode(element: Element) | TextNode(data: string)

  /** DOMTokenList.add: a token already present is not added again. */
  function AddToken(tokens: seq<string>, t: string): seq<string> {
    if t in tokens then tokens else tokens + [t]
  }

  /** addEventListener: a null handler and an identical registration are both ignored. */
  function AddListener(ls: seq<Listener>, l: Listener): seq<Listener> {
    if Nullish(l.handler) || l in ls then ls else ls + [l]
  }

  /** The children with c taken out. */
  function Without(cs: seq<Child>, c: Child): (r: seq<Child>)
    ensures forall i :: 0 <= i < |r| ==> r[i] in cs && r[i] != c
    ensures forall i :: 0 <= i < |cs| && cs[i] != c ==> cs[i] in r
    ensures c !in cs ==> r == cs
    ensures c in cs ==> |r| < |cs|
  {
    if cs == [] then []
    else
      var rest := Without(cs[1..], c);
      if cs[0] == c then rest else [cs[0]] + rest
  }

  /** Taking a child out keeps the children free of repeats. */
  lemma {:induction false} WithoutDistinct(cs: seq<Child>, c: Child)
    requires Distinct(cs)
    ensures Distinct(Without(cs, c))
  {
    if cs != [] {
      WithoutDistinct(cs[1..], c);
      var rest := Without(cs[1..], c);
      assert cs[0] !in cs[1..];
      assert cs[0] !in rest;
    }
  }

  /** appendChild of a node: it leaves its current place, if it has one, and goes last. */
  function AppendNode(cs: seq<Child>, c: Child): seq<Child> {
    Without(cs, c) + [c]
  }

  class Element {
    const tagName: string
    const namespaceURI: string
    var classList: seq<string>
    var attributes: map<string, Attr>
    var props: map<string, Value>
    var style: map<string, Value>
    var dataset: map<string, Value>
    var listeners: seq<Listener>
    var children: seq<Child>

    /** document.createElement(tagName) */
    constructor Create(tagName: string)
      requires ValidToken(tagName)
      ensures this.tagName == tagName && namespaceURI == HtmlNamespace
      ensures classList == [] && attributes == map[] && props == map[] && style == map[]
      ensures dataset == map[] && listeners == [] && children == []
    {
      this.tagName := tagName;
      namespaceURI := HtmlNamespace;
      classList, attributes, props, style := [], map[], map[], map[];
      dataset, listeners, children := map[], [], [];
    }

    /** document.createElementNS(namespace, tagName) */
    constructor CreateNS(namespace: string, tagName: string)
      requires ValidToken(tagName)
      ensures this.tagName == tagName && namespaceURI == namespace
      ensures classList == [] && attributes == map[] && props == map[] && style == map[]
      ensures dataset == map[] && listeners == [] && children == []
    {
      this.tagName := tagName;
      namespaceURI := namespace;
      classList, attributes, props, style := [], map[], map[], map[];
      dataset, listeners, children := map[], [], [];
    }

    /** classList.add(token) */
    method AddClass(token: string)
      requires ValidToken(token)
      modifies this`classList
      ensures classList == AddToken(old(classList), token)
    {
      classList := AddToken(classList, token);
    }

    /** setAttribute(name, value) */
    method SetAttribute(name: string, value: Value)
      modifies this`attributes
      ensures attributes == old(attributes)[name := Attr(None, value)]
    {
      attributes := attributes[name := Attr(None, value)];
    }

    /** setAttributeNS(namespace, name, value) */
    method SetAttributeNS(namespace: string, name: string, value: Value)
      modifies this`attributes
      ensures attributes == old(attributes)[name := Attr(Some(namespace), value)]
    {
      attributes := attributes[name := Attr(Some(namespace), value)];
    }

    /** element[key] = value */
    method SetProperty(key: string, value: Value)
      modifies this`props
      ensures props == old(props)[key := value]
    {
      props := props[key := value];
    }

    /** element.style[key] = value */
    method SetStyle(key: string, value: Value)
      modifies this`style
      ensures style == old(style)[key := value]
    {
      style := style[key := value];
    }

    /** element.dataset[key] = value */
    method SetData(key: string, value: Value)
      modifies this`dataset
      ensures dataset == old(dataset)[key := value]
    {
      dataset := dataset[key := value];
    }

    /** addEventListener(event, handler, capture) */
    method AddEventListener(event: string, handler: Value, capture: bool)
      requires AcceptedHandler(handler)
      modifies this`listeners
      ensures listeners == AddListener(old(listeners), Listener(event, handler, capture))
    {
      listeners := AddListener(listeners, Listener(event, handler, capture));
    }

    /** appendChild(element): a node cannot become its own child. */
    method AppendElement(e: Element)
      requires e != this
      modifies this`children
      ensures children == AppendNode(old(children), ElementNode(e))
    {
      children := AppendNode(children, ElementNode(e));
    }

    /** appendChild(document.createTextNode(data)): a fresh text node goes last. */
    method AppendText(data: string)
      modifies this`children
      ensures children == old(children) + [TextNode(data)]
    {
      children := children + [TextNode(data)];
    }
  }
}

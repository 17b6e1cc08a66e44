/**
 * createElement(tagAndClass, options, children): builds one element by
 * changing a freshly created node step by step -- classes, attributes, DOM
 * properties, inline style, listeners, children, the ref callback and finally
 * the dataset.  Each step is a method proved against its function in
 * StepSpecs; CreateElement ties them together in the order the builder runs
 * them.
 */
module Builder {
  import opened Wrappers
  import opened Dom
  import opened Names
  import opened StepSpecs
  import opened Binding

  /** What a ref callback was given: the node, with its children and dataset at that moment. */
  datatype RefCall = RefCall(node: Element, children: seq<Child>, dataset: map<string, Value>)

  /** A ref callback that keeps a log of its calls. */
  class RefLog {
    var calls: seq<RefCall>

    constructor ()
      ensures calls == []
    {
      calls := [];
    }

    method Record(node: Element)
      modifies this
      ensures calls == old(calls) + [RefCall(node, node.children, node.dataset)]
    {
      calls := calls + [RefCall(node, node.children, node.dataset)];
    }
  }

  /** A truthy `ref`: a logging callback, or a binder made by bindReference(target, key). */
  datatype Callback = Recorder(log: RefLog) | BoundRef(binder: Binder)

  function CallbackFootprint(cb: Callback): set<object> {
    match cb
    case Recorder(log) => {log}
    case BoundRef(b) => {b.target}
  }

  /**
   * The options object.  None is an absent or falsy field (the step is
   * skipped); Some(es) is an object, truthy even when it has no entries.
   */
  datatype Options = Options(
    style: Option<Entries>,
    listeners: Option<Entries>,
    attributes: Option<Entries>,
    ref: Option<Callback>,
    domProps: Option<Entries>,
    dataset: Option<Entries>)

  const NoOptions := Options(None, None, None, None, None, None)

  /** The second argument: left out (the `= {}` default applies), null, or an object. */
  datatype OptionsArg = Omitted | NullOptions | Given(options: Options)

  function OptionsOf(arg: OptionsArg): Options {
    if arg.Given? then arg.options else NoOptions
  }

  function EntriesOf(field: Option<Entries>): Entries {
    if field.Some? then field.value else []
  }

  /** The objects a call may change besides the node it creates: those of its ref callback. */
  function RefFootprint(arg: OptionsArg): set<object> {
    var o := OptionsOf(arg);
    if o.ref.Some? then CallbackFootprint(o.ref.value) else {}
  }

  /**
   * The third argument: Items is the Array.isArray case; Plain is any other
   * value (a string among them), never an array: an Obj in Plain is a
   * non-array object.
   */
  datatype ChildrenArg = Plain(value: Value) | Items(items: seq<Value>)

  datatype Error = TypeError | ReferenceError(name: string)

  /** No array item reaches the unbound `create`. */
  predicate ChildrenOk(c: ChildrenArg) {
    c.Items? ==> FirstFailure(c.items) == |c.items|
  }

  /** An array of children fails exactly when some item is truthy and not an element. */
  lemma ChildrenOkIff(items: seq<Value>)
    ensures ChildrenOk(Items(items)) <==> forall i :: 0 <= i < |items| ==> !AppendFails(items[i])
  {
  }

  /** The children after the children step, up to the item that throws if one does. */
  function ChildrenAppended(cs: seq<Child>, c: ChildrenArg): (r: seq<Child>)
    ensures c.Plain? ==> |cs| <= |r| <= |cs| + 1 && r[..|cs|] == cs
    ensures c.Plain? ==> (|r| > |cs| <==> c.value.Str? && c.value.s != "")
    ensures c.Plain? && |r| > |cs| ==> r[|cs|] == TextNode(c.value.s)
    ensures c.Items? ==> |r| <= |cs| + FirstFailure(c.items)
  {
    match c
    case Plain(v) => if Truthy(v) && v.Str? then cs + [TextNode(v.s)] else cs
    case Items(items) => ChildrenAfter(cs, items[..FirstFailure(items)])
  }

  predicate HandlersAccepted(es: Entries) {
    forall i :: 0 <= i < |es| ==> AcceptedHandler(es[i].1)
  }

  /** The node is not among the children it is given. */
  predicate NotAmong(node: Element, c: ChildrenArg) {
    c.Items? ==> Elem(node) !in c.items
  }

  /** A fresh empty element, in the SVG namespace when the tag is in the SVG table. */
  method NewElement(tagName: string) returns (node: Element)
    requires ValidToken(tagName)
    ensures fresh(node)
    ensures node.tagName == tagName && node.namespaceURI == ElementNamespace(tagName)
    ensures node.classList == [] && node.attributes == map[] && node.props == map[]
    ensures node.style == map[] && node.dataset == map[] && node.listeners == []
    ensures node.children == []
  {
    if tagName in SvgTags {
      node := new Element.CreateNS(SvgNamespace, tagName);
    } else {
      node := new Element.Create(tagName);
    }
  }

  /** Adds the classes of the tag spec, in order. */
  method AddClasses(node: Element, names: seq<string>)
    requires forall i :: 0 <= i < |names| ==> ValidToken(names[i])
    modifies node`classList
    ensures node.classList == ClassesAfter(old(node.classList), names)
  {
    var i := 0;
    while i < |names|
      invariant 0 <= i <= |names|
      invariant node.classList == ClassesAfter(old(node.classList), names[..i])
    {
      assert names[..i + 1][..i] == names[..i];
      node.AddClass(names[i]);
      i := i + 1;
    }
    assert names[..i] == names;
  }

  /** Sets each attribute with a truthy value, namespaced when the table has the key. */
  method SetAttributes(node: Element, field: Option<Entries>)
    modifies node`attributes
    ensures node.attributes == AttributesAfter(old(node.attributes), EntriesOf(field))
  {
    if field.None? {
      return;
    }
    var es := field.value;
    var i := 0;
    while i < |es|
      invariant 0 <= i <= |es|
      invariant node.attributes == AttributesAfter(old(node.attributes), es[..i])
    {
      assert es[..i + 1][..i] == es[..i];
      var (key, attr) := es[i];
      if Truthy(attr) {
        if key in NamespacedAttributes {
          node.SetAttributeNS(NamespacedAttributes[key], key, attr);
        } else {
          node.SetAttribute(key, attr);
        }
      }
      i := i + 1;
    }
    assert es[..i] == es;
  }

  /** Assigns each entry as a property of the node. */
  method AssignProps(node: Element, field: Option<Entries>)
    modifies node`props
    ensures node.props == Assigned(old(node.props), EntriesOf(field))
  {
    if field.None? {
      return;
    }
    var es := field.value;
    var i := 0;
    while i < |es|
      invariant 0 <= i <= |es|
      invariant node.props == Assigned(old(node.props), es[..i])
    {
      assert es[..i + 1][..i] == es[..i];
      node.SetProperty(es[i].0, es[i].1);
      i := i + 1;
    }
    assert es[..i] == es;
  }

  /** Assigns each entry to the node's inline style. */
  method AssignStyles(node: Element, field: Option<Entries>)
    modifies node`style
    ensures node.style == Assigned(old(node.style), EntriesOf(field))
  {
    if field.None? {
      return;
    }
    var es := field.value;
    var i := 0;
    while i < |es|
      invariant 0 <= i <= |es|
      invariant node.style == Assigned(old(node.style), es[..i])
    {
      assert es[..i + 1][..i] == es[..i];
      node.SetStyle(es[i].0, es[i].1);
      i := i + 1;
    }
    assert es[..i] == es;
  }

  /** Registers each handler for its event name, not capturing. */
  method BindListeners(node: Element, field: Option<Entries>)
    requires HandlersAccepted(EntriesOf(field))
    modifies node`listeners
    ensures node.listeners == ListenersAfter(old(node.listeners), EntriesOf(field))
  {
    if field.None? {
      return;
    }
    var es := field.value;
    var i := 0;
    while i < |es|
      invariant 0 <= i <= |es|
      invariant node.listeners == ListenersAfter(old(node.listeners), es[..i])
    {
      assert es[..i + 1][..i] == es[..i];
      node.AddEventListener(es[i].0, es[i].1, false);
      i := i + 1;
    }
    assert es[..i] == es;
  }

  /** The attribute, property, style and listener steps, which run before the children. */
  method ApplyOptions(node: Element, o: Options)
    requires HandlersAccepted(EntriesOf(o.listeners))
    modifies node`attributes, node`props, node`style, node`listeners
    ensures node.attributes == AttributesAfter(old(node.attributes), EntriesOf(o.attributes))
    ensures node.props == Assigned(old(node.props), EntriesOf(o.domProps))
    ensures node.style == Assigned(old(node.style), EntriesOf(o.style))
    ensures node.listeners == ListenersAfter(old(node.listeners), EntriesOf(o.listeners))
  {
    SetAttributes(node, o.attributes);
    AssignProps(node, o.domProps);
    AssignStyles(node, o.style);
    BindListeners(node, o.listeners);
  }

  /**
   * Appends the children.  A string gives one text node; any other value that
   * is not an array adds nothing.
   */
  method AppendChildren(node: Element, children: ChildrenArg) returns (ok: bool)
    requires NotAmong(node, children)
    modifies node`children
    ensures ok == ChildrenOk(children)
    ensures node.children == ChildrenAppended(old(node.children), children)
  {
    if children.Items? {
      ok := AppendItems(node, children.items);
    } else {
      var v := children.value;
      if Truthy(v) && v.Str? {
        node.AppendText(v.s);
      }
      ok := true;
    }
  }

  /**
   * The array case: falsy items are skipped, elements are appended, and the
   * first other item makes the call to the unbound `create` throw, which
   * ok = false reports.
   */
  method AppendItems(node: Element, items: seq<Value>) returns (ok: bool)
    requires Elem(node) !in items
    modifies node`children
    ensures ok == (FirstFailure(items) == |items|)
    ensures node.children == ChildrenAfter(old(node.children), items[..FirstFailure(items)])
  {
    var i := 0;
    while i < |items|
      invariant 0 <= i <= FirstFailure(items)
      invariant node.children == ChildrenAfter(old(node.children), items[..i])
    {
      assert items[..i + 1][..i] == items[..i];
      var child := items[i];
      if Truthy(child) {
        if child.Elem? {
          assert child in items;
          node.AppendElement(child.e);
        } else {
          return false;
        }
      }
      i := i + 1;
    }
    assert items[..i] == items;
    return true;
  }

  /** Calls the ref callback once, with the node. */
  method CallRef(cb: Callback, node: Element)
    modifies CallbackFootprint(cb)
    ensures cb.Recorder? ==>
              cb.log.calls == old(cb.log.calls) + [RefCall(node, node.children, node.dataset)]
    ensures cb.BoundRef? ==>
              cb.binder.target.fields == old(cb.binder.target.fields)[cb.binder.key := Elem(node)]
  {
    match cb
    case Recorder(log) =>
      log.Record(node);
    case BoundRef(b) =>
      var _ := b.Call(Elem(node));
  }

  /** Assigns each entry to the node's dataset. */
  method AssignDataset(node: Element, field: Option<Entries>)
    modifies node`dataset
    ensures node.dataset == Assigned(old(node.dataset), EntriesOf(field))
  {
    if field.None? {
      return;
    }
    var es := field.value;
    var i := 0;
    while i < |es|
      invariant 0 <= i <= |es|
      invariant node.dataset == Assigned(old(node.dataset), es[..i])
    {
      assert es[..i + 1][..i] == es[..i];
      node.SetData(es[i].0, es[i].1);
      i := i + 1;
    }
    assert es[..i] == es;
  }

  /**
   * createElement.  A null options object throws a TypeError before anything
   * happens; an array item that reaches `create` throws a ReferenceError after
   * the earlier items are appended, and neither the ref callback nor the
   * dataset step is reached.  Otherwise the fresh node is returned, and the ref
   * callback saw it with its final children and an empty dataset.
   */
  method CreateElement(tagAndClass: string, options: OptionsArg, children: ChildrenArg)
      returns (r: Result<Element, Error>)
    requires options.NullOptions? || ValidTagSpec(tagAndClass)
    requires HandlersAccepted(EntriesOf(OptionsOf(options).listeners))
    modifies RefFootprint(options)
    ensures options.NullOptions? ==> r == Failure(TypeError)
    ensures !options.NullOptions? && !ChildrenOk(children) ==> r == Failure(ReferenceError("create"))
    ensures !options.NullOptions? && ChildrenOk(children) ==> r.Success?
    ensures r.Failure? ==> unchanged(RefFootprint(options))
    ensures r.Success? ==> fresh(r.value)
    ensures r.Success? ==> r.value.tagName == TagName(tagAndClass)
    ensures r.Success? ==> r.value.namespaceURI == ElementNamespace(TagName(tagAndClass))
    ensures r.Success? ==> r.value.classList == ClassesAfter([], ClassNames(tagAndClass))
    ensures r.Success? ==>
              r.value.attributes == AttributesAfter(map[], EntriesOf(OptionsOf(options).attributes))
    ensures r.Success? ==> r.value.props == Assigned(map[], EntriesOf(OptionsOf(options).domProps))
    ensures r.Success? ==> r.value.style == Assigned(map[], EntriesOf(OptionsOf(options).style))
    ensures r.Success? ==>
              r.value.listeners == ListenersAfter([], EntriesOf(OptionsOf(options).listeners))
    ensures r.Success? ==> r.value.children == ChildrenAppended([], children)
    ensures r.Success? ==> r.value.dataset == Assigned(map[], EntriesOf(OptionsOf(options).dataset))
    ensures r.Success? ==>
              match OptionsOf(options).ref
              case None => true
              case Some(Recorder(log)) =>
                log.calls == old(log.calls) + [RefCall(r.value, r.value.children, map[])]
              case Some(BoundRef(b)) =>
                b.target.fields == old(b.target.fields)[b.key := Elem(r.value)]
  {
    if options.NullOptions? {
      // destructuring null throws before the body runs
      return Failure(TypeError);
    }
    r := Build(tagAndClass, OptionsOf(options), children);
  }

  /** The steps before the children: the node, its classes and the option maps. */
  method Prepare(tagAndClass: string, o: Options) returns (node: Element)
    requires ValidTagSpec(tagAndClass)
    requires HandlersAccepted(EntriesOf(o.listeners))
    ensures fresh(node)
    ensures node.tagName == TagName(tagAndClass)
    ensures node.namespaceURI == ElementNamespace(TagName(tagAndClass))
    ensures node.classList == ClassesAfter([], ClassNames(tagAndClass))
    ensures node.attributes == AttributesAfter(map[], EntriesOf(o.attributes))
    ensures node.props == Assigned(map[], EntriesOf(o.domProps))
    ensures node.style == Assigned(map[], EntriesOf(o.style))
    ensures node.listeners == ListenersAfter([], EntriesOf(o.listeners))
    ensures node.children == [] && node.dataset == map[]
  {
    var tagName, classList := TagName(tagAndClass), ClassNames(tagAndClass);
    ValidTagSpecParts(tagAndClass);
    node := NewElement(tagName);
    AddClasses(node, classList);
    ApplyOptions(node, o);
  }

  /** The body of createElement once the options are destructured. */
  method Build(tagAndClass: string, o: Options, children: ChildrenArg)
      returns (r: Result<Element, Error>)
    requires ValidTagSpec(tagAndClass)
    requires HandlersAccepted(EntriesOf(o.listeners))
    modifies RefFootprint(Given(o))
    ensures !ChildrenOk(children) ==> r == Failure(ReferenceError("create"))
    ensures ChildrenOk(children) ==> r.Success?
    ensures r.Failure? ==> unchanged(RefFootprint(Given(o)))
    ensures r.Success? ==> fresh(r.value)
    ensures r.Success? ==> r.value.tagName == TagName(tagAndClass)
    ensures r.Success? ==> r.value.namespaceURI == ElementNamespace(TagName(tagAndClass))
    ensures r.Success? ==> r.value.classList == ClassesAfter([], ClassNames(tagAndClass))
    ensures r.Success? ==>
              r.value.attributes == AttributesAfter(map[], EntriesOf(o.attributes))
    ensures r.Success? ==> r.value.props == Assigned(map[], EntriesOf(o.domProps))
    ensures r.Success? ==> r.value.style == Assigned(map[], EntriesOf(o.style))
    ensures r.Success? ==>
              r.value.listeners == ListenersAfter([], EntriesOf(o.listeners))
    ensures r.Success? ==> r.value.children == ChildrenAppended([], children)
    ensures r.Success? ==> r.value.dataset == Assigned(map[], EntriesOf(o.dataset))
    ensures r.Success? ==>
              match o.ref
              case None => true
              case Some(Recorder(log)) =>
                log.calls == old(log.calls) + [RefCall(r.value, r.value.children, map[])]
              case Some(BoundRef(b)) =>
                b.target.fields == old(b.target.fields)[b.key := Elem(r.value)]
  {
    var node := Prepare(tagAndClass, o);
    var ok := AppendChildren(node, children);
    if !ok {
      return Failure(ReferenceError("create"));
    }
    Complete(node, o);
    return Success(node);
  }

  /** The last two steps: the ref callback, if there is one, and then the dataset. */
  method Complete(node: Element, o: Options)
    requires node !in RefFootprint(Given(o))
    modifies node`dataset, RefFootprint(Given(o))
    ensures unchanged(node`classList, node`attributes, node`props, node`style, node`listeners, node`children)
    ensures node.dataset == Assigned(old(node.dataset), EntriesOf(o.dataset))
    ensures match o.ref
            case None => true
            case Some(Recorder(log)) =>
              log.calls == old(log.calls) + [RefCall(node, node.children, old(node.dataset))]
            case Some(BoundRef(b)) =>
              b.target.fields == old(b.target.fields)[b.key := Elem(node)]
  {
    if o.ref.Some? {
      CallRef(o.ref.value, node);
    }
    AssignDataset(node, o.dataset);
  }

}

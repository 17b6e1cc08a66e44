# create-element, modelled in Dafny

The repository is one hyperscript-style helper, `createElement(tagAndClass, options, children)`.
It builds a single DOM element: it parses a tag spec such as `"button.primary"`, creates the
element (in the SVG namespace for the 26 tags of its SVG table), and then changes the fresh node
step by step. The steps are:

1. add the classes;
2. set the truthy attributes, using the xlink namespace for `xlink:href`;
3. assign the DOM properties and the inline style;
4. register the listeners;
5. append the children;
6. call the `ref` callback;
7. fill the dataset.

The same file also defines a small helper, `bindReference(target, key, link)`.

The model has six modules:

- `Wrappers` (wrappers.dfy): `Option` and `Result`.
- `Dom` (dom.dfy): the host. A JavaScript `Value` with its truthiness, and a `class Element`
  whose fields are the parts of a node the builder writes, each kept as a separate field. Each
  host call is a method: `classList.add`, `setAttribute`, `setAttributeNS`, property, style and
  dataset writes, `addEventListener`, `appendChild`. `classList.add` does not repeat a token;
  `addEventListener` ignores a null handler and an identical registration; appending an element
  that is already a child moves it to the end.
- `Names` (names.dfy): the SVG tag table, the namespaced-attribute table, and the `.` split of
  the tag spec with its inverse join.
- `StepSpecs` (stepspecs.dfy): one specification function per step, of the form "the field after
  walking these entries", with the lemmas that state what the step guarantees.
- `Binding` (binding.dfy): `bindReference` and the binder it returns.
- `Builder` (builder.dfy): `createElement`. Each loop of the source is a method proved against
  its `StepSpecs` function, and `CreateElement` composes them in the source's order.

Options fields are `Option<Entries>`. `None` means the field is absent or falsy. `Some(es)` means
an object, which is truthy even with no entries. `Entries` lists the object's own properties in
for-in order.

The ref callback is either a `RefLog`, which records each call together with the node's children
and dataset at the moment of the call, or a binder made by `bindReference`.

Four behaviours of the code that are easy to miss:

- Array items that are neither falsy nor an `Element` do not build nested elements. The code
  calls `create(...child)` (index.js:106), and no `create` is defined, so a ReferenceError is
  raised when the name is looked up. Items before it are already appended. The `ref` callback and
  the dataset step are never reached. The model returns `Failure(ReferenceError("create"))`.
- `ref` is called after the children are attached but BEFORE the dataset is written
  (index.js:115-125), not after every other assignment.
- `options === null` raises a TypeError while the parameter is destructured, before anything else
  happens (index.js:51). A missing `options` takes the `{}` default.
- `bindReference` is not exported (index.js:130). It is modelled as a helper in its own right.

## Model

| member | source | states |
|---|---|---|
| Names.TagName | index.js:53 | the tag name is the longest dot-free prefix of the spec: the whole spec, or the text up to its first dot |
| Names.ClassNames | index.js:53 | the class names are dot-free, and there are none exactly when the spec has no dot |
| Names.SplitHead | index.js:53 | the first piece of the split is a prefix of the spec followed by a dot or the end |
| Names.SplitSingle | index.js:53 | the spec splits into a single piece exactly when it contains no dot |
| Names.Split | index.js:53 | the tag spec splits into at least one piece, and no piece contains a dot |
| Names.JoinSplit | index.js:53 | joining the pieces with dots gives back the spec exactly |
| Names.SplitJoin | index.js:53 | splitting the dot-join of dot-free pieces gives back those pieces |
| Names.SplitNoDot | index.js:53 | a spec without a dot is all tag name, with no class names |
| Names.ValidTagSpecParts | index.js:53-63 | under the host's name rule, the tag name and every class name are accepted tokens |
| Names.ElementNamespace | index.js:1-30 | the namespace is the SVG one exactly when the tag is in the 26-name SVG table, and the HTML one otherwise |
| Names.AttributeNamespace | index.js:32-34 | an attribute is set in the xlink namespace exactly when its key is `xlink:href`, and with no namespace otherwise |
| Dom.Truthy | index.js:37 | a value is falsy exactly when it is undefined, null, false, 0 or the empty string |
| StepSpecs.ClassesAfter | index.js:62-64 | the old classes stay first, and at most one class per name is added |
| StepSpecs.ClassesAfterMembers | index.js:62-64 | a class is present afterwards exactly when it was present before or was one of the names added |
| StepSpecs.ClassesAfterDistinct | index.js:62-64 | the class list never holds a class twice (duplicates collapse) |
| StepSpecs.ClassesAfterInOrder | index.js:62-64 | class names that do not repeat are appended in the order given |
| StepSpecs.SetAttributeEntry | index.js:68-77 | a truthy entry is set with its value, namespaced exactly when its key is in the namespaced table; a falsy entry changes nothing; no other attribute changes |
| StepSpecs.AttributesAfter | index.js:67-78 | no attribute is removed, and each one is either as before or a truthy entry value in its key's namespace |
| StepSpecs.AttributesAfterKeys | index.js:67-78 | the attributes set are exactly the old ones plus the keys with truthy values; a falsy value sets nothing |
| StepSpecs.AttributesAfterOther | index.js:67-78 | an attribute that no entry names keeps its old value |
| StepSpecs.AttributesAfterAt | index.js:67-78 | a truthy entry ends up set with its value and its key's namespace; a falsy entry leaves its attribute as it was |
| StepSpecs.Assigned | index.js:81-92 | no key is removed, and each value is either as before or copied from an entry with that key |
| StepSpecs.AssignedKeys | index.js:81-92 | after assigning props, style or dataset, the keys present are the old ones plus every entry's key, falsy values included |
| StepSpecs.AssignedOther | index.js:81-92 | a key that no entry names keeps its old value |
| StepSpecs.AssignedAt | index.js:121-125 | every entry is copied as given, whether its value is truthy or not |
| StepSpecs.ListenersAfter | index.js:95-99 | the old listeners stay first; each one added is non-capturing, has a non-null handler and comes from an entry |
| StepSpecs.ListenersAfterFresh | index.js:95-99 | on a fresh node the listeners are exactly one non-capturing registration per entry with a handler, in entry order |
| StepSpecs.AppendFails | index.js:106 | an array item reaches `create` exactly when it is true, a non-zero number, a non-empty string or a non-element object |
| StepSpecs.AppendItem | index.js:105-107 | an element item ends up last, and adds no child when it was a child already; any other item changes nothing |
| StepSpecs.ChildrenAfter | index.js:104-108 | each array item adds at most one child |
| StepSpecs.FirstFailure | index.js:104-108 | the index of the first array item that reaches `create` (truthy and not an element), or the length when there is none |
| StepSpecs.ChildrenAfterFresh | index.js:104-108 | element items that do not repeat become the children, in array order and unchanged |
| StepSpecs.ChildrenSkipFalsy | index.js:105 | removing a falsy item from the array leaves the children the same |
| StepSpecs.ChildrenAfterMembers | index.js:104-108 | a child is present afterwards exactly when it was before or is an element item of the array |
| StepSpecs.ChildrenAfterDistinct | index.js:106 | appending an element twice moves it instead of doubling it |
| Dom.Without | index.js:106 | taking a node out of the children keeps every other child and drops that node, so the list gets shorter exactly when the node was there |
| Dom.WithoutDistinct | index.js:106 | taking a node out keeps the children free of repeats |
| Builder.ChildrenAppended | index.js:101-113 | a non-array value keeps the old children first and adds one text node exactly when it is a non-empty string; an array adds at most one child per item before the first failing one |
| Builder.ChildrenOkIff | index.js:104-108 | an array of children fails exactly when some item is truthy and not an element |
| Dom.Element.Create | index.js:59 | `document.createElement`: an empty node in the HTML namespace |
| Dom.Element.CreateNS | index.js:58 | `document.createElementNS`: an empty node in the given namespace |
| Dom.Element.AddClass | index.js:63 | `classList.add`: the token is appended unless already present |
| Dom.Element.SetAttribute | index.js:74 | the attribute is set with no namespace |
| Dom.Element.SetAttributeNS | index.js:72 | the attribute is set in the given namespace |
| Dom.Element.SetProperty | index.js:83 | the property is assigned |
| Dom.Element.SetStyle | index.js:90 | the inline style entry is assigned |
| Dom.Element.AddEventListener | index.js:97 | the listener is appended unless its handler is null or an identical one is present |
| Dom.Element.AppendElement | index.js:106 | the element moves to the end of the children |
| Dom.Element.AppendText | index.js:110-111 | a fresh text node with the string is appended last |
| Dom.Element.SetData | index.js:123 | the dataset entry is assigned |
| Builder.NewElement | index.js:56-59 | a fresh empty node, whose namespace is chosen by the SVG table |
| Builder.AddClasses | index.js:62-64 | the class list becomes `ClassesAfter` of the old list and the names |
| Builder.SetAttributes | index.js:67-78 | the attributes become `AttributesAfter` of the old ones and the entries; an absent field changes nothing |
| Builder.AssignProps | index.js:81-85 | the properties become the old ones with every entry assigned |
| Builder.AssignStyles | index.js:88-92 | the inline style becomes the old one with every entry assigned |
| Builder.BindListeners | index.js:95-99 | the listeners become `ListenersAfter` of the old ones and the entries, all non-capturing |
| Builder.ApplyOptions | index.js:66-99 | the attribute, property, style and listener steps run in the source's order |
| Builder.AppendChildren | index.js:101-113 | a truthy string gives one text child; any other non-array value adds nothing; an array reports failure exactly when an item reaches `create` |
| Builder.AppendItems | index.js:104-108 | the children are the element items appended up to the first failing item; the result is ok exactly when no item fails |
| Builder.RefLog.Record | index.js:117 | a ref call is logged with the node and its children and dataset at that moment |
| Builder.CallRef | index.js:115-118 | the callback is called once with the node; a binder stores the node in `target[key]` |
| Builder.Complete | index.js:115-125 | the ref callback, if any, sees the node with its final children and its dataset as before; then the dataset gets every entry; no other field of the node changes |
| Builder.AssignDataset | index.js:120-125 | the dataset becomes the old one with every entry assigned |
| Builder.Prepare | index.js:51-99 | the node before its children: the tag, namespace, classes, attributes, properties, style and listeners from the spec functions, with no children and an empty dataset |
| Builder.Build | index.js:51-127 | the whole build once the options are destructured: it fails exactly when an array item reaches `create` (the ref target is then unchanged); on success every field matches its spec function, and `ref` was called once with the final children and an empty dataset |
| Builder.CreateElement | index.js:51-128 | as Build; a null options object gives a TypeError and changes nothing, whatever the tag spec; absent fields change nothing; only the ref target and the fresh node are modified |
| Binding.BindReference | index.js:36-41 | a truthy link is stored in `target[key]` and nothing else changes; a falsy link returns a binder over `(target, key)` and leaves the target unchanged |
| Binding.Binder.Call | index.js:38 | calling the binder is `bindReference(target, key, link)`, so each later call with a truthy link overwrites `target[key]` |

## Left out

- The real DOM and `document`. Element, text-node creation and every host call are the abstract `Dom.Element` operations.
- Parent bookkeeping across the tree. An element appended here leaves its old parent in the DOM, but the model does not update that parent.
- Host name validation. It is reduced to one rule for tag names and class names: non-empty and free of ASCII whitespace, stated as preconditions. The full XML Name rules, and rejection of attribute names or dataset keys, are not modelled.
- The links a browser keeps between an element's attribute list and its class list, inline style and dataset. The model keeps them as separate fields. An attribute entry named `class`, `style` or `data-*` therefore does not replace the class list, the style or the dataset; for example `createElement("div.a", {attributes: {class: "b"}})` has class list `["b"]` in a browser, but the model gives `["a"]`. The reverse direction is not tracked either: classes, style and dataset entries never appear among the attributes. The lowercasing of attribute names by `setAttribute` on HTML elements is not modelled; keys are kept as given.
- HTML tag-name lowercasing by `document.createElement`. The tag is kept as given.
- Conversion of attribute, style and dataset values to strings, the CSS meaning of style keys, the `data-*` name mapping, and DOM property setters. Values are stored as given, in opaque maps.
- Listener handlers that are primitives other than null/undefined. The host rejects them with a TypeError, and the model makes this a precondition.
- Event dispatch. What listener handlers and `ref` callbacks do is not modelled: a ref is only logged, or stored by a binder.
- A truthy `ref` that is not callable (a TypeError in the host). `ref` is either absent or a callback.
- Numbers are integers: NaN, -0 and BigInt truthiness are not modelled.
- `for...in` over inherited enumerable keys and over primitive option values. Option fields are either absent or a list of own entries.
- The `this` binding in `bindReference.bind(this, …)` and the module export.
- StepSpecs.ClassesAfterInOrder: states the order only for class names that do not repeat. For repeated names only membership and the absence of duplicates are stated.
- StepSpecs.ChildrenAfterFresh: states array order only for element items that do not repeat. For repeated elements only membership and the absence of duplicates are stated.
- StepSpecs.ListenersAfterFresh: assumes distinct event names, as the keys of one JavaScript object always are.

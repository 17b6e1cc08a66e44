/**
 * What each step of the builder does to a node, as functions of the option
 * entries it walks, and what those functions guarantee.  Every step walks its
 * entries front to back, so each "...After" function is defined on the last
 * entry: F(m, es) is one more host call on top of F(m, es[..|es| - 1]).
 */
module StepSpecs {
  import opened Wrappers
  import opened Dom
  import opened Names

  /** The own enumerable properties of an options object, in for-in order. */
  type Entries = seq<(string, Value)>

  /** Property names of a JavaScript object never repeat. */
  predicate DistinctKeys(es: Entries) {
    forall i, j :: 0 <= i < j < |es| ==> es[i].0 != es[j].0
  }

  function Keys(es: Entries): set<string> {
    set i | 0 <= i < |es| :: es[i].0
  }

  function TruthyKeys(es: Entries): set<string> {
    set i | 0 <= i < |es| && Truthy(es[i].1) :: es[i].0
  }

  lemma KeysSnoc(es: Entries)
    requires es != []
    ensures Keys(es) == Keys(es[..|es| - 1]) + {es[|es| - 1].0}
    ensures TruthyKeys(es) ==
              TruthyKeys(es[..|es| - 1]) + (if Truthy(es[|es| - 1].1) then {es[|es| - 1].0} else {})
  {
    var n := |es| - 1;
    var p := es[..n];
    forall k | k in Keys(es) ensures k in Keys(p) + {es[n].0} {
      var i :| 0 <= i < |es| && es[i].0 == k;
      if i < n { assert p[i] == es[i]; }
    }
    forall k | k in TruthyKeys(es)
      ensures k in TruthyKeys(p) + (if Truthy(es[n].1) then {es[n].0} else {})
    {
      var i :| 0 <= i < |es| && Truthy(es[i].1) && es[i].0 == k;
      if i < n { assert p[i] == es[i]; }
    }
    forall k | k in Keys(p) ensures k in Keys(es) {
      var i :| 0 <= i < |p| && p[i].0 == k;
      assert es[i] == p[i];
    }
    forall k | k in TruthyKeys(p) ensures k in TruthyKeys(es) {
      var i :| 0 <= i < |p| && Truthy(p[i].1) && p[i].0 == k;
      assert es[i] == p[i];
    }
  }

  lemma DistinctKeysPrefix(es: Entries, n: nat)
    requires DistinctKeys(es) && n <= |es|
    ensures DistinctKeys(es[..n])
    ensures forall i :: 0 <= i < n ==> es[i].0 in Keys(es[..n])
    ensures n < |es| ==> es[n].0 !in Keys(es[..n])
  {
    assert forall i :: 0 <= i < n ==> es[..n][i] == es[i];
  }

  // ---------------------------------------------------------------- classes

  /** The class list after classList.add of each name in turn. */
  function ClassesAfter(tokens: seq<string>, names: seq<string>): (r: seq<string>)
    ensures |tokens| <= |r| <= |tokens| + |names|
    ensures r[..|tokens|] == tokens
    decreases |names|
  {
    if names == [] then tokens
    else AddToken(ClassesAfter(tokens, names[..|names| - 1]), names[|names| - 1])
  }

  /** A class is present afterwards exactly when it was before or was added. */
  lemma {:induction false} ClassesAfterMembers(tokens: seq<string>, names: seq<string>, t: string)
    ensures t in ClassesAfter(tokens, names) <==> t in tokens || t in names
  {
    if names != [] {
      var n := |names| - 1;
      ClassesAfterMembers(tokens, names[..n], t);
      assert names == names[..n] + [names[n]];
    }
  }

  /** The class list never holds a class twice. */
  lemma {:induction false} ClassesAfterDistinct(tokens: seq<string>, names: seq<string>)
    requires Distinct(tokens)
    ensures Distinct(ClassesAfter(tokens, names))
  {
    if names != [] {
      ClassesAfterDistinct(tokens, names[..|names| - 1]);
    }
  }

  /** Classes that do not repeat are added in the order given. */
  lemma {:induction false} ClassesAfterInOrder(tokens: seq<string>, names: seq<string>)
    requires Distinct(tokens + names)
    ensures ClassesAfter(tokens, names) == tokens + names
  {
    if names != [] {
      var n := |names| - 1;
      var all := tokens + names;
      assert tokens + names[..n] == all[..|tokens| + n];
      assert Distinct(tokens + names[..n]);
      ClassesAfterInOrder(tokens, names[..n]);
      assert all[|tokens| + n] == names[n];
      assert names[n] !in tokens + names[..n];
      assert tokens + names[..n] + [names[n]] == all;
    }
  }

  // ------------------------------------------------------------- attributes

  /** One pass of the attribute loop: a falsy value is skipped. */
  function SetAttributeEntry(m: map<string, Attr>, e: (string, Value)): (r: map<string, Attr>)
    ensures Truthy(e.1) ==>
              e.0 in r && r[e.0].value == e.1 && (r[e.0].namespace.Some? <==> e.0 in NamespacedAttributes)
    ensures !Truthy(e.1) ==> r == m
    ensures m.Keys <= r.Keys
    ensures forall k :: k in r && k != e.0 ==> k in m && r[k] == m[k]
  {
    if Truthy(e.1) then m[e.0 := Attr(AttributeNamespace(e.0), e.1)] else m
  }

  /** The attributes after the attribute loop: each one is either as before or a truthy value in its key's namespace. */
  function AttributesAfter(m: map<string, Attr>, es: Entries): (r: map<string, Attr>)
    ensures m.Keys <= r.Keys
    ensures forall k :: k in r ==>
              (k in m && r[k] == m[k]) || (Truthy(r[k].value) && r[k].namespace == AttributeNamespace(k))
    decreases |es|
  {
    if es == [] then m
    else SetAttributeEntry(AttributesAfter(m, es[..|es| - 1]), es[|es| - 1])
  }

  /** The attributes set are exactly those with a truthy value. */
  lemma {:induction false} AttributesAfterKeys(m: map<string, Attr>, es: Entries)
    ensures AttributesAfter(m, es).Keys == m.Keys + TruthyKeys(es)
  {
    if es != [] {
      AttributesAfterKeys(m, es[..|es| - 1]);
      KeysSnoc(es);
    }
  }

  /** An attribute no entry names keeps its old value. */
  lemma {:induction false} AttributesAfterOther(m: map<string, Attr>, es: Entries, k: string)
    requires k !in Keys(es)
    ensures k in AttributesAfter(m, es) <==> k in m
    ensures k in m ==> AttributesAfter(m, es)[k] == m[k]
  {
    if es != [] {
      KeysSnoc(es);
      AttributesAfterOther(m, es[..|es| - 1], k);
    }
  }

  /**
   * Each entry's effect: a truthy value is set, in the xlink namespace for
   * "xlink:href" and in none otherwise; a falsy value leaves the attribute
   * as it was.
   */
  lemma {:induction false} AttributesAfterAt(m: map<string, Attr>, es: Entries, i: nat)
    requires DistinctKeys(es) && i < |es|
    ensures Truthy(es[i].1) ==>
              es[i].0 in AttributesAfter(m, es) &&
              AttributesAfter(m, es)[es[i].0] == Attr(AttributeNamespace(es[i].0), es[i].1)
    ensures !Truthy(es[i].1) ==>
              (es[i].0 in AttributesAfter(m, es) <==> es[i].0 in m) &&
              (es[i].0 in m ==> AttributesAfter(m, es)[es[i].0] == m[es[i].0])
  {
    var n := |es| - 1;
    DistinctKeysPrefix(es, n);
    if i == n {
      AttributesAfterOther(m, es[..n], es[i].0);
    } else {
      assert es[..n][i] == es[i];
      AttributesAfterAt(m, es[..n], i);
    }
  }

  // ------------------------------------------------ props, style and dataset

  /** The map after assigning every entry in turn, falsy values included. */
  function Assigned(m: map<string, Value>, es: Entries): (r: map<string, Value>)
    ensures m.Keys <= r.Keys
    ensures forall k :: k in r ==> (k in m && r[k] == m[k]) || (k, r[k]) in es
    decreases |es|
  {
    if es == [] then m
    else Assigned(m, es[..|es| - 1])[es[|es| - 1].0 := es[|es| - 1].1]
  }

  /** Every entry's key is present afterwards, and nothing else is added. */
  lemma {:induction false} AssignedKeys(m: map<string, Value>, es: Entries)
    ensures Assigned(m, es).Keys == m.Keys + Keys(es)
  {
    if es != [] {
      AssignedKeys(m, es[..|es| - 1]);
      KeysSnoc(es);
    }
  }

  lemma {:induction false} AssignedOther(m: map<string, Value>, es: Entries, k: string)
    requires k !in Keys(es)
    ensures k in Assigned(m, es) <==> k in m
    ensures k in m ==> Assigned(m, es)[k] == m[k]
  {
    if es != [] {
      KeysSnoc(es);
      AssignedOther(m, es[..|es| - 1], k);
    }
  }

  /** Every entry is copied as given, whether its value is truthy or not. */
  lemma {:induction false} AssignedAt(m: map<string, Value>, es: Entries, i: nat)
    requires DistinctKeys(es) && i < |es|
    ensures es[i].0 in Assigned(m, es) && Assigned(m, es)[es[i].0] == es[i].1
  {
    var n := |es| - 1;
    if i < n {
      DistinctKeysPrefix(es, n);
      assert es[..n][i] == es[i];
      AssignedAt(m, es[..n], i);
    }
  }

  // -------------------------------------------------------------- listeners

  /** The listener list after addEventListener(key, handler, false) for each entry. */
  function ListenersAfter(ls: seq<Listener>, es: Entries): (r: seq<Listener>)
    ensures |ls| <= |r| <= |ls| + |es| && r[..|ls|] == ls
    ensures forall i :: |ls| <= i < |r| ==>
              !r[i].capture && !Nullish(r[i].handler) && (r[i].event, r[i].handler) in es
    decreases |es|
  {
    if es == [] then ls
    else
      var e := es[|es| - 1];
      AddListener(ListenersAfter(ls, es[..|es| - 1]), Listener(e.0, e.1, false))
  }

  /** The registration an entry stands for: none for a null or undefined handler. */
  function Registration(e: (string, Value)): seq<Listener> {
    if Nullish(e.1) then [] else [Listener(e.0, e.1, false)]
  }

  /** Reference definition: one non-capturing listener per entry with a handler, in entry order. */
  function Registrations(es: Entries): seq<Listener>
  {
    if es == [] then [] else Registration(es[0]) + Registrations(es[1..])
  }

  lemma {:induction false} RegistrationsSnoc(es: Entries)
    requires es != []
    ensures Registrations(es) == Registrations(es[..|es| - 1]) + Registration(es[|es| - 1])
  {
    if |es| > 1 {
      var n := |es| - 1;
      assert es[1..][..n - 1] == es[..n][1..];
      RegistrationsSnoc(es[1..]);
    } else {
      assert es[..0] == [];
    }
  }

  lemma {:induction false} RegistrationsEvents(es: Entries, l: Listener)
    requires l in Registrations(es)
    ensures l.event in Keys(es)
  {
    if l !in Registration(es[0]) {
      RegistrationsEvents(es[1..], l);
      var i :| 0 <= i < |es[1..]| && es[1..][i].0 == l.event;
      assert es[i + 1].0 == l.event;
    } else {
      assert es[0].0 == l.event;
    }
  }

  /** On a fresh node, the listeners are exactly the reference registrations. */
  lemma {:induction false} ListenersAfterFresh(es: Entries)
    requires DistinctKeys(es)
    ensures ListenersAfter([], es) == Registrations(es)
  {
    if es != [] {
      var n := |es| - 1;
      DistinctKeysPrefix(es, n);
      ListenersAfterFresh(es[..n]);
      RegistrationsSnoc(es);
      var l := Listener(es[n].0, es[n].1, false);
      if l in Registrations(es[..n]) {
        RegistrationsEvents(es[..n], l);
      }
    }
  }

  // --------------------------------------------------------------- children

  /** An array item appendChild(create(...item)) is reached with: `create` is unbound, so it throws. */
  predicate AppendFails(v: Value)
    ensures AppendFails(v) <==>
              v.Obj? || v == Bool(true) || (v.Num? && v.n != 0) || (v.Str? && v.s != "")
  {
    Truthy(v) && !v.Elem?
  }

  /** One pass of the children loop over an item that does not fail. */
  function AppendItem(cs: seq<Child>, v: Value): (r: seq<Child>)
    ensures !v.Elem? ==> r == cs
    ensures v.Elem? ==> 0 < |r| <= |cs| + 1 && r[|r| - 1] == ElementNode(v.e)
    ensures v.Elem? && ElementNode(v.e) in cs ==> |r| <= |cs|
  {
    if v.Elem? then AppendNode(cs, ElementNode(v.e)) else cs
  }

  /** The children after the array loop: each item adds at most one child. */
  function ChildrenAfter(cs: seq<Child>, items: seq<Value>): (r: seq<Child>)
    ensures |r| <= |cs| + |items|
    decreases |items|
  {
    if items == [] then cs
    else AppendItem(ChildrenAfter(cs, items[..|items| - 1]), items[|items| - 1])
  }

  /** Index of the first item that fails, or the length when none does. */
  function FirstFailure(items: seq<Value>): (k: nat)
    ensures k <= |items|
    ensures forall i :: 0 <= i < k ==> !AppendFails(items[i])
    ensures k < |items| ==> AppendFails(items[k])
  {
    if items == [] then 0
    else if AppendFails(items[0]) then 0
    else 1 + FirstFailure(items[1..])
  }

  /** The child an array item contributes when it is an element. */
  function ElementOf(v: Value): seq<Child> {
    if v.Elem? then [ElementNode(v.e)] else []
  }

  /** Reference definition: the element items, in array order. */
  function Elements(items: seq<Value>): seq<Child> {
    if items == [] then [] else ElementOf(items[0]) + Elements(items[1..])
  }

  predicate DistinctElements(items: seq<Value>) {
    forall i, j :: 0 <= i < j < |items| && items[i].Elem? ==> items[j] != items[i]
  }

  lemma {:induction false} ElementsSnoc(items: seq<Value>)
    requires items != []
    ensures Elements(items) == Elements(items[..|items| - 1]) + ElementOf(items[|items| - 1])
  {
    var n := |items| - 1;
    if n > 0 {
      var t := items[1..];
      ElementsSnoc(t);
      assert t[..n - 1] == items[..n][1..];
      assert t[n - 1] == items[n];
      assert items[..n][0] == items[0];
      assert Elements(items[..n]) == ElementOf(items[0]) + Elements(t[..n - 1]);
    } else {
      assert items[..0] == [];
      assert items[1..] == [];
    }
  }

  lemma {:induction false} ElementsMember(items: seq<Value>, c: Child)
    ensures c in Elements(items) <==> c.ElementNode? && Elem(c.element) in items
  {
    if items != [] {
      ElementsMember(items[1..], c);
      assert items == [items[0]] + items[1..];
    }
  }

  /** Element items that do not repeat become the children in array order. */
  lemma {:induction false} ChildrenAfterFresh(items: seq<Value>)
    requires DistinctElements(items)
    ensures ChildrenAfter([], items) == Elements(items)
  {
    if items != [] {
      var n := |items| - 1;
      var p := items[..n];
      assert DistinctElements(p) by {
        forall i, j | 0 <= i < j < |p| && p[i].Elem? ensures p[j] != p[i] {
          assert p[i] == items[i] && p[j] == items[j];
        }
      }
      ChildrenAfterFresh(p);
      ElementsSnoc(items);
      if items[n].Elem? {
        var c := ElementNode(items[n].e);
        ElementsMember(p, c);
        assert items[n] !in p by {
          forall j | 0 <= j < |p| ensures p[j] != items[n] {
            assert p[j] == items[j];
          }
        }
      }
    }
  }

  lemma {:induction false} ChildrenAfterConcat(cs: seq<Child>, a: seq<Value>, b: seq<Value>)
    ensures ChildrenAfter(cs, a + b) == ChildrenAfter(ChildrenAfter(cs, a), b)
    decreases |b|
  {
    if b == [] {
      assert a + b == a;
    } else {
      var n := |b| - 1;
      assert (a + b)[..|a + b| - 1] == a + b[..n];
      assert (a + b)[|a + b| - 1] == b[n];
      ChildrenAfterConcat(cs, a, b[..n]);
    }
  }

  /** A falsy item contributes nothing: removing it changes no child. */
  lemma {:induction false} ChildrenSkipFalsy(cs: seq<Child>, items: seq<Value>, i: nat)
    requires i < |items| && !Truthy(items[i])
    ensures ChildrenAfter(cs, items) == ChildrenAfter(cs, items[..i] + items[i + 1..])
  {
    var a, b := items[..i], items[i + 1..];
    assert items == a + [items[i]] + b;
    ChildrenAfterConcat(cs, a + [items[i]], b);
    ChildrenAfterConcat(cs, a, b);
    assert (a + [items[i]])[..|a|] == a;
  }

  /** Afterwards a child is present exactly when it was before or is an element item. */
  lemma {:induction false} ChildrenAfterMembers(cs: seq<Child>, items: seq<Value>, c: Child)
    ensures c in ChildrenAfter(cs, items) <==> c in cs || c in Elements(items)
  {
    if items != [] {
      var n := |items| - 1;
      ChildrenAfterMembers(cs, items[..n], c);
      ElementsSnoc(items);
      var acc := ChildrenAfter(cs, items[..n]);
      if items[n].Elem? && c in acc && c != ElementNode(items[n].e) {
        var k :| 0 <= k < |acc| && acc[k] == c;
        assert c in Without(acc, ElementNode(items[n].e));
      }
    }
  }

  /** Repeated element items are not doubled: the node holds each child once. */
  lemma {:induction false} ChildrenAfterDistinct(cs: seq<Child>, items: seq<Value>)
    requires Distinct(cs)
    ensures Distinct(ChildrenAfter(cs, items))
  {
    if items != [] {
      var n := |items| - 1;
      ChildrenAfterDistinct(cs, items[..n]);
      if items[n].Elem? {
        var acc := ChildrenAfter(cs, items[..n]);
        WithoutDistinct(acc, ElementNode(items[n].e));
      }
    }
  }
}

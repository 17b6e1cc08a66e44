/**
 * bindReference(target, key, link): with a truthy link it stores the link in
 * target[key]; without one it returns itself partially applied to
 * (target, key), to be called later with the link, for instance as the `ref`
 * callback of createElement.
 */
module Binding {
  import opened Wrappers
  import opened Dom

  /** An object whose properties a binder writes. */
  class Target {
    var fields: map<string, Value>

    constructor (fields: map<string, Value>)
      ensures this.fields == fields
    {
      this.fields := fields;
    }
  }

  /** The function bindReference.bind(this, target, key). */
  datatype Binder = Binder(target: Target, key: string) {

    /** Calling the bound function with a link is bindReference(target, key, link). */
    method Call(link: Value) returns (r: Option<Binder>)
      modifies target
      ensures Truthy(link) ==> r == None && target.fields == old(target.fields)[key := link]
      ensures !Truthy(link) ==> r == Some(this) && target.fields == old(target.fields)
    {
      r := BindReference(target, key, link);
    }
  }

  /** None stands for the undefined that bindReference returns after a store. */
  method BindReference(target: Target, key: string, link: Value) returns (r: Option<Binder>)
    modifies target
    ensures Truthy(link) ==> r == None && target.fields == old(target.fields)[key := link]
    ensures !Truthy(link) ==> r == Some(Binder(target, key)) && target.fields == old(target.fields)
  {
    if !Truthy(link) {
      return Some(Binder(target, key));
    }
    target.fields := target.fields[key := link];
    return None;
  }
}

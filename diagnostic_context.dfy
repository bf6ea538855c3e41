/**
 * `DiagnosticContext`: the per-request bag of named values the logging
 * writes out. Names compare ordinal case-insensitively; the dictionary
 * keeps the spelling a name was first added with.
 */
module DiagnosticContexts {
  import opened Wrappers
  import opened Strings

  /** A stored `object`: a string, or any other object, known by its identity. */
  datatype Value = Text(text: string) | Reference(id: nat)

  /** A dictionary entry: the key as first added, and its value. */
  datatype Entry = Entry(key: string, value: Value)

  /** The dictionary, filed under the case fold of each key. */
  type Store = map<string, Entry>

  /** Every entry is filed under the fold of its own key. */
  predicate FiledByFold(s: Store) {
    forall k :: k in s ==> FoldCase(s[k].key) == k
  }

  /** `value ?? "null"`. */
  function Stored(value: Option<Value>): Value {
    value.GetOr(Text("null"))
  }

  /** The store after `Set`: an existing key is overwritten and keeps its spelling, a new one is added. */
  function SetIn(s: Store, name: string, value: Option<Value>): Store {
    var k := FoldCase(name);
    if k in s then s[k := Entry(s[k].key, Stored(value))] else s[k := Entry(name, Stored(value))]
  }

  /** What `Get` answers: the value, or `ArgumentException("name")` for a missing key. */
  function GetFrom(s: Store, name: string): Result<Value> {
    var k := FoldCase(name);
    if k in s then Success(s[k].value) else Failure(ArgumentException(Some("name"), None))
  }

  /** The store after `Remove`. */
  function RemoveFrom(s: Store, name: string): Store {
    s - {FoldCase(name)}
  }

  class DiagnosticContext {
    var store: Store

    predicate Valid()
      reads this
    {
      FiledByFold(store)
    }

    constructor()
      ensures Valid() && store == map[]
    {
      store := map[];
    }

    method Set(name: string, value: Option<Value>)
      requires Valid()
      modifies this
      ensures Valid() && store == SetIn(old(store), name, value)
    {
      var v := if value.None? then Text("null") else value.value;
      var k := FoldCase(name);
      FoldCaseIdempotent(name);
      if k in store {
        store := store[k := Entry(store[k].key, v)];
        return;
      }
      store := store[k := Entry(name, v)];
    }

    method Get(name: string) returns (r: Result<Value>)
      ensures r == GetFrom(store, name)
      ensures r.Success? <==> FoldCase(name) in store
    {
      var k := FoldCase(name);
      if k in store {
        r := Success(store[k].value);
      } else {
        r := Failure(ArgumentException(Some("name"), None));
      }
    }

    method Remove(name: string)
      requires Valid()
      modifies this
      ensures Valid() && store == RemoveFrom(old(store), name)
    {
      store := store - {FoldCase(name)};
    }

    /** `Get`, then `Remove`: a missing key throws before anything is removed. */
    method Pop(name: string) returns (r: Result<Value>)
      requires Valid()
      modifies this
      ensures Valid()
      ensures r == GetFrom(old(store), name)
      ensures store == if r.Success? then RemoveFrom(old(store), name) else old(store)
    {
      r := Get(name);
      if r.Failure? {
        return;
      }
      Remove(name);
    }

    /** A copy of the dictionary: a value, which later updates of the context leave as it is. */
    method GetData() returns (data: Store)
      ensures data == store
    {
      data := store;
    }
  }

  /**
   * After `Set`, the name gets the new value (`"null"` for null) and every
   * name of another key gets what it got before; the entries stay filed
   * by the fold of their keys, and exactly the name's key is added.
   */
  lemma SetThenGet(s: Store, name: string, value: Option<Value>, other: string)
    requires FiledByFold(s)
    ensures GetFrom(SetIn(s, name, value), name) == Success(if value.Some? then value.value else Text("null"))
    ensures FoldCase(other) != FoldCase(name) ==> GetFrom(SetIn(s, name, value), other) == GetFrom(s, other)
    ensures FiledByFold(SetIn(s, name, value))
    ensures SetIn(s, name, value).Keys == s.Keys + {FoldCase(name)}
  {
    FoldCaseIdempotent(name);
  }

  /** Overwriting keeps the spelling the key was first added with; a new key is spelled as given. */
  lemma SetKeepsSpelling(s: Store, name: string, value: Option<Value>)
    ensures FoldCase(name) in s ==> SetIn(s, name, value)[FoldCase(name)].key == s[FoldCase(name)].key
    ensures FoldCase(name) !in s ==> SetIn(s, name, value)[FoldCase(name)].key == name
  {
  }

  /** A value set under one spelling is got back under any spelling that differs only in ASCII case. */
  lemma GetIgnoresCase(s: Store, name: string, value: Option<Value>, other: string)
    requires |name| == |other|
    requires forall i :: 0 <= i < |name| ==>
      name[i] == other[i] || FoldChar(name[i]) == other[i] || name[i] == FoldChar(other[i])
    ensures GetFrom(SetIn(s, name, value), other) == Success(Stored(value))
  {
    FoldCaseIgnoresCase(name, other);
  }

  /**
   * After `Remove`, the name is missing and every other key keeps its
   * value; removing a missing name changes nothing, and removing a name
   * just added undoes the addition.
   */
  lemma RemoveSpec(s: Store, name: string, value: Option<Value>, other: string)
    requires FiledByFold(s)
    ensures GetFrom(RemoveFrom(s, name), name).Failure?
    ensures FoldCase(other) != FoldCase(name) ==> GetFrom(RemoveFrom(s, name), other) == GetFrom(s, other)
    ensures GetFrom(s, name).Failure? ==> RemoveFrom(s, name) == s
    ensures GetFrom(s, name).Failure? ==> RemoveFrom(SetIn(s, name, value), name) == s
    ensures FiledByFold(RemoveFrom(s, name))
  {
  }
}

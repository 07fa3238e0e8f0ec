/**
 * FieldObject: the descriptor record every resolver produces, and its defaulting constructor.
 * `(array)new FieldObject($data)` is the six public properties in declaration order.
 */
module Descriptors {
  import opened Php

  /** One field descriptor; `fieldType` is the property named `type`. */
  datatype FieldObject = FieldObject(
    required: Value,
    isRelation: Value,
    fieldType: Value,
    default: Value,
    comment: Value,
    options: Value)

  /** The property names, in declaration order. */
  const FieldNames: seq<string> := ["required", "isRelation", "type", "default", "comment", "options"]

  /** `isset($data[$name]) ? $data[$name] : $fallback`: a null entry counts as absent. */
  function Isset(data: seq<(Key, Value)>, name: string, fallback: Value): (v: Value)
    ensures Get(data, StrKey(name)).Some? && Get(data, StrKey(name)).value != Null ==>
      v == Get(data, StrKey(name)).value
    ensures Get(data, StrKey(name)).None? || Get(data, StrKey(name)).value == Null ==> v == fallback
  {
    match Get(data, StrKey(name))
    case Some(x) => if x != Null then x else fallback
    case None => fallback
  }

  /** new FieldObject($data) */
  function NewFieldObject(data: seq<(Key, Value)>): (f: FieldObject)
    ensures f.required == Isset(data, "required", Bool(false))
    ensures f.isRelation == Isset(data, "isRelation", Bool(false))
    ensures f.fieldType == Isset(data, "type", Str("String"))
    ensures f.default == Isset(data, "default", Null)
    ensures f.comment == Isset(data, "comment", Null)
    ensures f.options == Isset(data, "options", Arr([]))
  {
    FieldObject(
      Isset(data, "required", Bool(false)),
      Isset(data, "isRelation", Bool(false)),
      Isset(data, "type", Str("String")),
      Isset(data, "default", Null),
      Isset(data, "comment", Null),
      Isset(data, "options", Arr([])))
  }

  /** `(array)$fieldObject`: the six properties under their names, in declaration order. */
  function ToArray(f: FieldObject): seq<(Key, Value)>
  {
    [ (StrKey("required"), f.required),
      (StrKey("isRelation"), f.isRelation),
      (StrKey("type"), f.fieldType),
      (StrKey("default"), f.default),
      (StrKey("comment"), f.comment),
      (StrKey("options"), f.options) ]
  }

  /** With nothing given, every property takes its default. */
  lemma EmptyDefaults()
    ensures NewFieldObject([]) == FieldObject(Bool(false), Bool(false), Str("String"), Null, Null, Arr([]))
  {
  }

  /**
   * Only the six named entries matter: two inputs that agree on them build the same record,
   * whatever else either of them holds.
   */
  lemma OnlySixFields(d1: seq<(Key, Value)>, d2: seq<(Key, Value)>)
    requires forall i :: 0 <= i < 6 ==> Get(d1, StrKey(FieldNames[i])) == Get(d2, StrKey(FieldNames[i]))
    ensures NewFieldObject(d1) == NewFieldObject(d2)
  {
    IssetAgrees(d1, d2, 0, Bool(false));
    IssetAgrees(d1, d2, 1, Bool(false));
    IssetAgrees(d1, d2, 2, Str("String"));
    IssetAgrees(d1, d2, 3, Null);
    IssetAgrees(d1, d2, 4, Null);
    IssetAgrees(d1, d2, 5, Arr([]));
  }

  /** Inputs that agree on one property name give it the same value. */
  lemma IssetAgrees(d1: seq<(Key, Value)>, d2: seq<(Key, Value)>, i: nat, fallback: Value)
    requires i < 6 && Get(d1, StrKey(FieldNames[i])) == Get(d2, StrKey(FieldNames[i]))
    ensures Isset(d1, FieldNames[i], fallback) == Isset(d2, FieldNames[i], fallback)
  {
  }

  /** `(array)$f` holds each property under its own name: the six names are distinct. */
  lemma ToArrayGet(f: FieldObject, i: nat)
    requires i < 6
    ensures Get(ToArray(f), ToArray(f)[i].0) == Some(ToArray(f)[i].1)
  {
    GetAt(ToArray(f), i);
  }

  /**
   * Building a record from its own array form gives it back, as long as the properties whose
   * default is not null are not null themselves (a null there would be replaced by the default).
   */
  lemma ToArrayRoundTrip(f: FieldObject)
    requires f.required != Null && f.isRelation != Null && f.fieldType != Null && f.options != Null
    ensures NewFieldObject(ToArray(f)) == f
  {
    ToArrayGet(f, 0);
    ToArrayGet(f, 1);
    ToArrayGet(f, 2);
    ToArrayGet(f, 3);
    ToArrayGet(f, 4);
    ToArrayGet(f, 5);
  }
}

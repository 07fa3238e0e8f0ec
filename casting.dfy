/**
 * Casting: a resource's output array is cast, value by value, to the PHP type its validation
 * rule declares (`phpType()` of the rule's parser). Nested arrays are handled first, and their
 * entries are looked up under `parent.attribute`.
 */
module Casting {
  import opened Php
  import opened RuleParsing

  const CarbonClass := "Illuminate\\Support\\Carbon"
  const PhpIntMax := 0x7fff_ffff_ffff_ffff

  /** The conversions the casts call into and that the model does not spell out. */
  datatype CastEnv = CastEnv(
    host: Host,
    isCarbon: Value -> bool,                    // $value instanceof Carbon
    timestamp: Value -> int,                    // $carbon->timestamp
    floatOf: Value -> real,                     // (float) of a value that is not a float
    floatString: real -> string,                // (string) of a float
    objectString: Value -> string,              // (string) of a Carbon object
    objectArray: Value -> seq<(Key, Value)>)    // (array) of a Carbon object: its properties

  // ---------------------------------------------------------------------------
  // PHP's scalar casts
  // ---------------------------------------------------------------------------

  /** Truncation toward zero, as `(int)` does to a float. */
  function Truncate(r: real): (i: int)
    ensures r >= 0.0 ==> i as real <= r < i as real + 1.0
    ensures r < 0.0 ==> i as real - 1.0 < r <= i as real
  {
    if r >= 0.0 then r.Floor else -((-r).Floor)
  }

  /** `(int)$v` for a value that is not an object other than a Carbon one. */
  function IntOf(v: Value): int
  {
    match v
    case Null => 0
    case Bool(b) => if b then 1 else 0
    case Int(i) => i
    case Float(r) => Truncate(r)
    case Str(s) => IntCast(s)
    case Arr(es) => if es == [] then 0 else 1
    case Obj(_, _) => 1
  }

  /** `(string)$v`. */
  function StringOf(v: Value, env: CastEnv): string
  {
    match v
    case Null => ""
    case Bool(b) => if b then "1" else ""
    case Int(i) => IntToString(i)
    case Float(r) => env.floatString(r)
    case Str(s) => s
    case Arr(_) => "Array"
    case Obj(_, _) => env.objectString(v)
  }

  /** `(float)$v`. */
  function FloatOf(v: Value, env: CastEnv): real
  {
    if v.Float? then v.r else env.floatOf(v)
  }

  /** `(array)$v`. */
  function ArrayOf(v: Value, env: CastEnv): seq<(Key, Value)>
  {
    if v.Obj? then env.objectArray(v) else AsArray(v)
  }

  // ---------------------------------------------------------------------------
  // castAttribute
  // ---------------------------------------------------------------------------

  /** The lower-cased phpType() of the rule for `attribute`. */
  function RuleType(attribute: Key, rules: seq<(Key, RuleSpec)>, env: CastEnv): (t: string)
    requires HasKey(rules, attribute)
    ensures t in {"int", "bool", "array", "float", "string"}
  {
    var t := PhpTypeOf(ParsedTokens(Get(rules, attribute).value, env.host));
    LowerKeepsLowercase(t);
    Lower(t)
  }

  /** strtolower leaves a string without capitals as it is. */
  lemma LowerKeepsLowercase(s: string)
    requires s in {"int", "bool", "array", "float", "string"}
    ensures Lower(s) == s
  {
    forall i | 0 <= i < |s| ensures LowerChar(s[i]) == s[i] {
      assert 'a' <= s[i] <= 'z';
    }
  }

  /** The dispatch on the lower-cased type name, for a value that is not a foreign object. */
  function CastTo(t: string, value: Value, env: CastEnv): (r: Value)
    ensures t == "int" && value.Obj? ==> r == Int(env.timestamp(value))
    ensures t == "int" && !value.Obj? ==> r == Int(IntOf(value))
    ensures t == "float" ==> r.Float?
    ensures t == "float" && value.Float? ==> r == value
    ensures t == "bool" ==> r == Bool(Truthy(value))
    ensures t == "string" ==> r.Str?
    ensures t == "string" && value.Str? ==> r == value
    ensures t == "string" && value.Int? ==> r == Str(IntToString(value.i))
    ensures t == "string" && value.Null? ==> r == Str("")
    ensures t == "string" && value.Bool? ==> r == Str(if value.b then "1" else "")
    ensures t == "array" && value.Obj? ==> r == Arr(env.objectArray(value))
    ensures t == "array" && !value.Obj? ==> r == Arr(AsArray(value))
    ensures t !in {"int", "float", "bool", "string", "array"} ==> r == value
  {
    if t == "int" then
      if value.Obj? then Int(env.timestamp(value)) else Int(IntOf(value))
    else if t == "float" then Float(FloatOf(value, env))
    else if t == "bool" then Bool(Truthy(value))
    else if t == "string" then Str(StringOf(value, env))
    else if t == "array" then Arr(ArrayOf(value, env))
    else value
  }

  /** castAttribute(): the value converted to the type its rule declares; other objects untouched. */
  function CastAttributeOf(attribute: Key, value: Value, rules: seq<(Key, RuleSpec)>, env: CastEnv): (r: Value)
    requires HasKey(rules, attribute)
    ensures value.Obj? && !env.isCarbon(value) ==> r == value
    ensures value.Obj? && env.isCarbon(value) ==> !r.Obj?
    ensures !value.Obj? ==> !r.Obj?
    ensures !(value.Obj? && !env.isCarbon(value)) ==> r == CastTo(RuleType(attribute, rules, env), value, env)
    ensures value.Obj? && env.isCarbon(value) && RuleType(attribute, rules, env) == "int" ==> r == Int(env.timestamp(value))
    ensures !value.Obj? && RuleType(attribute, rules, env) == "int" ==> r == Int(IntOf(value))
    ensures !(value.Obj? && !env.isCarbon(value)) && RuleType(attribute, rules, env) == "bool" ==> r == Bool(Truthy(value))
    ensures !value.Obj? && RuleType(attribute, rules, env) == "array" ==> r == Arr(AsArray(value))
    ensures !value.Obj? && RuleType(attribute, rules, env) == "string" && value.Str? ==> r == value
    ensures !value.Obj? && RuleType(attribute, rules, env) == "float" && value.Float? ==> r == value
  {
    if value.Obj? && !env.isCarbon(value) then value
    else CastTo(RuleType(attribute, rules, env), value, env)
  }

  /** A value already of the type comes back unchanged, so casting twice is casting once. */
  lemma CastToIdempotent(t: string, value: Value, env: CastEnv)
    ensures CastTo(t, CastTo(t, value, env), env) == CastTo(t, value, env)
  {
    var once := CastTo(t, value, env);
    if t == "int" {
      assert IntOf(once) == once.i;
    }
  }

  /** castAttribute is idempotent. */
  lemma CastAttributeIdempotent(attribute: Key, value: Value, rules: seq<(Key, RuleSpec)>, env: CastEnv)
    requires HasKey(rules, attribute)
    ensures var once := CastAttributeOf(attribute, value, rules, env);
      CastAttributeOf(attribute, once, rules, env) == once
  {
    var t := RuleType(attribute, rules, env);
    CastToIdempotent(t, value, env);
    var once := CastAttributeOf(attribute, value, rules, env);
    if !(value.Obj? && !env.isCarbon(value)) {
      assert !once.Obj?;
    }
  }

  /** `(int)` of the decimal rendering of a number up to PHP_INT_MAX gives the number. */
  lemma IntOfDecimal(n: nat)
    requires n <= PhpIntMax
    ensures IntOf(Str(NatToString(n))) == n
  {
    NatCastRoundTrip(n);
  }

  // ---------------------------------------------------------------------------
  // castArray
  // ---------------------------------------------------------------------------

  /**
   * The key a value is looked up under: `$parent . '.' . $attribute` when the parent is truthy
   * (not null, not 0, not ""), else the attribute itself.
   */
  function LookupKey(parent: Option<Key>, attribute: Key): (k: Key)
    ensures parent.Some? && Truthy(KeyValue(parent.value)) ==>
      k == StrKey(KeyStr(parent.value) + "." + KeyStr(attribute))
    ensures !(parent.Some? && Truthy(KeyValue(parent.value))) ==> k == attribute
  {
    if parent.Some? && Truthy(KeyValue(parent.value)) then
      var s := KeyStr(parent.value) + "." + KeyStr(attribute);
      assert s[|KeyStr(parent.value)|] == '.';
      MarkedKeyIsString(s, '.');
      KeyOf(s)
    else attribute
  }

  /** castArray($data, $rules, $parent) over the first `n` entries of `item`. */
  function CastArrayOf(item: Value, n: nat, rules: seq<(Key, RuleSpec)>, parent: Option<Key>, env: CastEnv): (r: seq<(Key, Value)>)
    requires item.Arr? && n <= |item.entries|
    ensures |r| == n
    ensures forall i :: 0 <= i < n ==> r[i].0 == item.entries[i].0
    decreases item, 1, n
  {
    if n == 0 then []
    else CastArrayOf(item, n - 1, rules, parent, env) + [CastEntryOf(item, n - 1, rules, parent, env)]
  }

  /** One turn of castArray's loop: the nested array first, then the value's own rule. */
  function CastEntryOf(item: Value, i: nat, rules: seq<(Key, RuleSpec)>, parent: Option<Key>, env: CastEnv): (e: (Key, Value))
    requires item.Arr? && i < |item.entries|
    ensures e.0 == item.entries[i].0
    decreases item, 0, i
  {
    var (attribute, value) := item.entries[i];
    var inner := if value.Arr? then Arr(CastArrayOf(value, |value.entries|, rules, Some(attribute), env)) else value;
    var key := LookupKey(parent, attribute);
    if HasKey(rules, key) then (attribute, CastAttributeOf(key, inner, rules, env)) else (attribute, inner)
  }

  /** castArray(): `foreach ($data as $attribute => &$value)` rewrites each value in place. */
  method CastArray(item: Value, rules: seq<(Key, RuleSpec)>, parent: Option<Key>, env: CastEnv) returns (out: seq<(Key, Value)>)
    requires item.Arr?
    ensures out == CastArrayOf(item, |item.entries|, rules, parent, env)
    decreases item, 1
  {
    var data := item.entries;
    out := data;
    for i := 0 to |data|
      invariant |out| == |data|
      invariant out[..i] == CastArrayOf(item, i, rules, parent, env)
      invariant forall j :: i <= j < |data| ==> out[j] == data[j]
    {
      var e := CastEntry(item, i, rules, parent, env);
      PrefixStep(item, i, rules, parent, env, out, e.1);
      out := out[i := e];
    }
    assert out[..|data|] == out;
  }

  /** One turn of castArray's loop: a nested array is cast first, then the value gets its own rule. */
  method CastEntry(item: Value, i: nat, rules: seq<(Key, RuleSpec)>, parent: Option<Key>, env: CastEnv) returns (e: (Key, Value))
    requires item.Arr? && i < |item.entries|
    ensures e == CastEntryOf(item, i, rules, parent, env)
    decreases item, 0
  {
    var attribute := item.entries[i].0;
    var value := item.entries[i].1;
    var inner := value;
    if value.Arr? {
      var entries := CastArray(value, rules, Some(attribute), env);
      inner := Arr(entries);
    }
    var key := LookupKey(parent, attribute);
    var cast := inner;
    if HasKey(rules, key) {
      cast := CastAttributeOf(key, inner, rules, env);
    }
    e := (attribute, cast);
  }

  /** Rewriting entry `i` in place extends the cast prefix by one entry. */
  lemma PrefixStep(item: Value, i: nat, rules: seq<(Key, RuleSpec)>, parent: Option<Key>, env: CastEnv, out: seq<(Key, Value)>, cast: Value)
    requires item.Arr? && i < |item.entries| == |out|
    requires out[..i] == CastArrayOf(item, i, rules, parent, env)
    requires (item.entries[i].0, cast) == CastEntryOf(item, i, rules, parent, env)
    ensures out[i := (item.entries[i].0, cast)][..i + 1] == CastArrayOf(item, i + 1, rules, parent, env)
  {
    var next := out[i := (item.entries[i].0, cast)];
    assert next[..i + 1] == out[..i] + [next[i]];
  }

  /** toArray(): the resource's output cast by its rules. */
  function ResourceArray(output: seq<(Key, Value)>, rules: seq<(Key, RuleSpec)>, env: CastEnv): (r: seq<(Key, Value)>)
    ensures KeysOf(r) == KeysOf(output)
    ensures |r| == |output|
    ensures forall i :: 0 <= i < |output| && !output[i].1.Arr? && HasKey(rules, output[i].0) ==>
      r[i] == (output[i].0, CastAttributeOf(output[i].0, output[i].1, rules, env))
    ensures forall i :: 0 <= i < |output| && !output[i].1.Arr? && !HasKey(rules, output[i].0) ==> r[i] == output[i]
  {
    var r := CastArrayOf(Arr(output), |output|, rules, None, env);
    forall i | 0 <= i < |output|
      ensures r[i] == CastEntryOf(Arr(output), i, rules, None, env)
    {
      CastPrefix(Arr(output), |output|, i, rules, None, env);
    }
    r
  }

  // ---------------------------------------------------------------------------
  // What castArray keeps
  // ---------------------------------------------------------------------------

  /** castArray keeps every key and the order of the keys. */
  lemma CastArrayKeepsKeys(data: seq<(Key, Value)>, rules: seq<(Key, RuleSpec)>, parent: Option<Key>, env: CastEnv)
    ensures KeysOf(CastArrayOf(Arr(data), |data|, rules, parent, env)) == KeysOf(data)
  {
  }

  /** A value that is not an array and has no rule under its lookup key is unchanged. */
  lemma UnruledValueKept(data: seq<(Key, Value)>, rules: seq<(Key, RuleSpec)>, parent: Option<Key>, env: CastEnv, i: nat)
    requires i < |data| && !data[i].1.Arr? && !HasKey(rules, LookupKey(parent, data[i].0))
    ensures CastArrayOf(Arr(data), |data|, rules, parent, env)[i] == data[i]
  {
    CastPrefix(Arr(data), |data|, i, rules, parent, env);
  }

  /** A value that is not an array and has a rule under its lookup key is castAttribute of it. */
  lemma RuledValueCast(data: seq<(Key, Value)>, rules: seq<(Key, RuleSpec)>, parent: Option<Key>, env: CastEnv, i: nat)
    requires i < |data| && !data[i].1.Arr? && HasKey(rules, LookupKey(parent, data[i].0))
    ensures CastArrayOf(Arr(data), |data|, rules, parent, env)[i] ==
      (data[i].0, CastAttributeOf(LookupKey(parent, data[i].0), data[i].1, rules, env))
  {
    CastPrefix(Arr(data), |data|, i, rules, parent, env);
  }

  /** An entry holding an array and a rule of its own: the nested cast first, then castAttribute of the result. */
  lemma RuledNestedEntry(item: Value, i: nat, rules: seq<(Key, RuleSpec)>, parent: Option<Key>, env: CastEnv)
    requires item.Arr? && i < |item.entries| && item.entries[i].1.Arr?
    requires HasKey(rules, LookupKey(parent, item.entries[i].0))
    ensures var child := item.entries[i].1;
      var key := LookupKey(parent, item.entries[i].0);
      CastEntryOf(item, i, rules, parent, env).1 ==
        CastAttributeOf(key, Arr(CastArrayOf(child, |child.entries|, rules, Some(item.entries[i].0), env)), rules, env)
  {
  }

  /** Entry `i` of the cast is the cast of entry `i`. */
  lemma {:induction false} CastPrefix(item: Value, n: nat, i: nat, rules: seq<(Key, RuleSpec)>, parent: Option<Key>, env: CastEnv)
    requires item.Arr? && i < n <= |item.entries|
    ensures CastArrayOf(item, n, rules, parent, env)[i] == CastEntryOf(item, i, rules, parent, env)
    decreases n
  {
    if i < n - 1 {
      CastPrefix(item, n - 1, i, rules, parent, env);
    }
  }

  /** An entry holding an array and no rule of its own becomes its array cast with itself as parent. */
  lemma NestedEntry(item: Value, i: nat, rules: seq<(Key, RuleSpec)>, parent: Option<Key>, env: CastEnv)
    requires item.Arr? && i < |item.entries| && item.entries[i].1.Arr?
    requires !HasKey(rules, LookupKey(parent, item.entries[i].0))
    ensures var child := item.entries[i].1;
      CastEntryOf(item, i, rules, parent, env).1 ==
        Arr(CastArrayOf(child, |child.entries|, rules, Some(item.entries[i].0), env))
  {
  }

  /** The cast of a one-entry array is the cast of that entry. */
  lemma CastSingle(item: Value, rules: seq<(Key, RuleSpec)>, parent: Option<Key>, env: CastEnv)
    requires item.Arr? && |item.entries| == 1
    ensures CastArrayOf(item, 1, rules, parent, env) == [CastEntryOf(item, 0, rules, parent, env)]
  {
  }

  /**
   * Two levels down the lookup key is only `child.grandchild`: the recursion passes the bare
   * attribute as the parent, so a rule written for the full path `a.b.c` is never consulted, and
   * one for `b.c` is.
   */
  lemma GrandchildLookup(a: string, b: string, c: string, v: Value, rules: seq<(Key, RuleSpec)>, env: CastEnv)
    requires StrTruthy(a) && StrTruthy(b) && !v.Arr?
    requires !HasKey(rules, StrKey(a)) && !HasKey(rules, StrKey(a + "." + b))
    ensures var data := [(StrKey(a), Arr([(StrKey(b), Arr([(StrKey(c), v)]))]))];
      var out := CastArrayOf(Arr(data), 1, rules, None, env);
      var leaf := Arr([(StrKey(b), Arr([(StrKey(c), Cast(b, c, v, rules, env))]))]);
      out == [(StrKey(a), leaf)]
  {
    var level2 := Arr([(StrKey(c), v)]);
    var level1 := Arr([(StrKey(b), level2)]);
    var data := Arr([(StrKey(a), level1)]);
    KeyValueTruthy(a);
    KeyValueTruthy(b);
    assert LookupKey(None, StrKey(a)) == StrKey(a);
    assert LookupKey(Some(StrKey(a)), StrKey(b)) == StrKey(a + "." + b);
    assert LookupKey(Some(StrKey(b)), StrKey(c)) == StrKey(b + "." + c);
    CastSingle(level2, rules, Some(StrKey(b)), env);
    CastSingle(level1, rules, Some(StrKey(a)), env);
    NestedEntry(level1, 0, rules, Some(StrKey(a)), env);
    CastSingle(data, rules, None, env);
    NestedEntry(data, 0, rules, None, env);
  }

  /** A string key is truthy exactly when its text is. */
  lemma KeyValueTruthy(a: string)
    requires StrTruthy(a)
    ensures Truthy(KeyValue(StrKey(a)))
  {
  }

  /** What the grandchild `c` under `b` becomes: cast by the rule for `b.c` when there is one. */
  function Cast(b: string, c: string, v: Value, rules: seq<(Key, RuleSpec)>, env: CastEnv): Value
  {
    if HasKey(rules, StrKey(b + "." + c)) then CastAttributeOf(StrKey(b + "." + c), v, rules, env) else v
  }
}

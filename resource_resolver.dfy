/**
 * ResourceResolver: the output descriptors of an API resource, read off a sample of its
 * `toArray()` output. Nested arrays are flattened one level; attributes that are relations are
 * moved into the resolver's `relationsFields`, which accumulates across calls.
 */
module ResourceResolving {
  import opened Php
  import opened RuleParsing
  import opened Resolving

  /** What the resolver learns about the resource class by reflection and by calling it. */
  datatype Resource = Resource(
    cls: string,
    sample: Option<seq<(Key, Value)>>,     // toArray(request()); None when it throws
    declaredFields: Option<seq<string>>,   // fields(), when the method exists
    scenario: Option<string>,              // the `scenario` property, when it exists
    relations: Option<seq<(Key, Value)>>,  // (array)relations(), when the method exists
    labels: seq<(Key, string)>,            // attributesLabels(), or []
    rules: seq<(Key, RuleSpec)>,           // attributesRules(), or []
    constants: seq<(Key, Value)>,          // the class constants
    model: Option<seq<(Key, Value)>>)      // the constants of model(), when it exists and is truthy

  /** The runtime the resolver calls into. */
  datatype Env = Env(
    host: Host,
    guessType: Key -> string,              // RuleParser::guessType
    printR: seq<(Key, Value)> -> string,   // print_r($options, true)
    isA: (string, string) -> bool,         // instanceof, by class name
    collects: Value -> Value)              // the `collects` property of a resource collection

  const ResourceCollectionClass := "Illuminate\\Http\\Resources\\Json\\ResourceCollection"
  const JsonResourceClass := "Illuminate\\Http\\Resources\\Json\\JsonResource"
  const OptionsSuffix := "。可选值："

  datatype ResourceMissData = ResourceMissData(message: string)

  /** One output descriptor. */
  datatype OutputField = OutputField(fieldType: string, options: seq<Key>, comment: Option<string>)

  /** One relation descriptor. */
  datatype RelationField = RelationField(fieldType: Value, comment: Option<string>)

  // ---------------------------------------------------------------------------
  // toArray: the sample, flattened one level
  // ---------------------------------------------------------------------------

  /** The key `$attribute . '.' . $i`; it holds a dot, so it is a string key. */
  function ChildKey(attribute: Key, i: Key): (k: Key)
    ensures k == StrKey(KeyStr(attribute) + "." + KeyStr(i))
  {
    var s := KeyStr(attribute) + "." + KeyStr(i);
    assert s[|KeyStr(attribute)|] == '.';
    MarkedKeyIsString(s, '.');
    KeyOf(s)
  }

  /** The inner loop of toArray: `$data[$attribute . '.' . $i] = $v` for each element, in order. */
  function PutChildren(acc: seq<(Key, Value)>, attribute: Key, es: seq<(Key, Value)>): seq<(Key, Value)>
    decreases |es|
  {
    if es == [] then acc
    else
      var last := es[|es| - 1];
      Put(PutChildren(acc, attribute, es[..|es| - 1]), ChildKey(attribute, last.0), last.1)
  }

  /** One step of toArray: an array value becomes `attr => []` and its children; others are copied. */
  function FlattenEntry(acc: seq<(Key, Value)>, e: (Key, Value)): seq<(Key, Value)>
  {
    match e.1
    case Arr(es) => PutChildren(Put(acc, e.0, Arr([])), e.0, es)
    case _ => Put(acc, e.0, e.1)
  }

  /** toArray() over the sample, entry by entry. */
  function Flattened(flat: seq<(Key, Value)>): seq<(Key, Value)>
    decreases |flat|
  {
    if flat == [] then []
    else FlattenEntry(Flattened(flat[..|flat| - 1]), flat[|flat| - 1])
  }

  /** toArray(): the two nested loops writing `$data`. */
  method FlattenSample(flat: seq<(Key, Value)>) returns (data: seq<(Key, Value)>)
    ensures data == Flattened(flat)
  {
    data := [];
    for i := 0 to |flat|
      invariant data == Flattened(flat[..i])
    {
      assert flat[..i + 1][..i] == flat[..i];
      var (attribute, val) := flat[i];
      if val.Arr? {
        data := Put(data, attribute, Arr([]));
        ghost var start := data;
        var es := val.entries;
        for j := 0 to |es|
          invariant data == PutChildren(start, attribute, es[..j])
        {
          assert es[..j + 1][..j] == es[..j];
          data := Put(data, ChildKey(attribute, es[j].0), es[j].1);
        }
        assert es[..|es|] == es;
        continue;
      }
      data := Put(data, attribute, val);
    }
    assert flat[..|flat|] == flat;
  }

  /** The child entries of an array value, under their dotted keys. */
  function Children(attribute: Key, es: seq<(Key, Value)>): (r: seq<(Key, Value)>)
    ensures |r| == |es|
    ensures forall j :: 0 <= j < |es| ==> r[j] == (ChildKey(attribute, es[j].0), es[j].1)
    decreases |es|
  {
    if es == [] then []
    else Children(attribute, es[..|es| - 1]) + [(ChildKey(attribute, es[|es| - 1].0), es[|es| - 1].1)]
  }

  /** The flattened form of one entry, as a plain list. */
  function ExpandEntry(e: (Key, Value)): (r: seq<(Key, Value)>)
    ensures |r| >= 1 && r[0].0 == e.0
  {
    match e.1
    case Arr(es) => [(e.0, Arr([]))] + Children(e.0, es)
    case _ => [e]
  }

  /** The flattened form of a sample, as a plain concatenation. */
  function Expand(flat: seq<(Key, Value)>): seq<(Key, Value)>
    decreases |flat|
  {
    if flat == [] then [] else Expand(flat[..|flat| - 1]) + ExpandEntry(flat[|flat| - 1])
  }

  /** When no key of the flattened form repeats, each write appends: toArray is the concatenation. */
  lemma {:induction false} FlattenedIsExpand(flat: seq<(Key, Value)>)
    requires DistinctKeys(Expand(flat))
    ensures Flattened(flat) == Expand(flat)
    decreases |flat|
  {
    if flat != [] {
      var init, e := flat[..|flat| - 1], flat[|flat| - 1];
      DistinctKeysPrefix(Expand(init), ExpandEntry(e));
      FlattenedIsExpand(init);
      FlattenEntryAppends(Expand(init), e);
    }
  }

  lemma FlattenEntryAppends(acc: seq<(Key, Value)>, e: (Key, Value))
    requires DistinctKeys(acc + ExpandEntry(e))
    ensures FlattenEntry(acc, e) == acc + ExpandEntry(e)
  {
    DistinctKeysPrefix(acc, ExpandEntry(e));
    if e.1.Arr? {
      var start := acc + [(e.0, Arr([]))];
      assert acc + ExpandEntry(e) == start + Children(e.0, e.1.entries);
      PutChildrenAppends(start, e.0, e.1.entries);
    }
  }

  lemma {:induction false} PutChildrenAppends(start: seq<(Key, Value)>, attribute: Key, es: seq<(Key, Value)>)
    requires DistinctKeys(start + Children(attribute, es))
    ensures PutChildren(start, attribute, es) == start + Children(attribute, es)
    decreases |es|
  {
    if es != [] {
      var init := es[..|es| - 1];
      var last := (ChildKey(attribute, es[|es| - 1].0), es[|es| - 1].1);
      assert Children(attribute, es) == Children(attribute, init) + [last];
      var before := start + Children(attribute, init);
      assert start + Children(attribute, es) == before + [last];
      DistinctKeysPrefix(before, [last]);
      PutChildrenAppends(start, attribute, init);
      assert PutChildren(start, attribute, es) == Put(before, last.0, last.1);
    }
  }

  /** Writing keys keeps them distinct: toArray's result never repeats a key. */
  lemma {:induction false} FlattenedDistinct(flat: seq<(Key, Value)>)
    ensures DistinctKeys(Flattened(flat))
    decreases |flat|
  {
    if flat != [] {
      var init, e := flat[..|flat| - 1], flat[|flat| - 1];
      FlattenedDistinct(init);
      var acc := Flattened(init);
      match e.1
      case Arr(es) =>
        PutDistinct(acc, e.0, Arr([]));
        PutChildrenDistinct(Put(acc, e.0, Arr([])), e.0, es);
      case _ =>
        PutDistinct(acc, e.0, e.1);
    }
  }

  lemma {:induction false} PutChildrenDistinct(acc: seq<(Key, Value)>, attribute: Key, es: seq<(Key, Value)>)
    requires DistinctKeys(acc)
    ensures DistinctKeys(PutChildren(acc, attribute, es))
    decreases |es|
  {
    if es != [] {
      var last := es[|es| - 1];
      PutChildrenDistinct(acc, attribute, es[..|es| - 1]);
      PutDistinct(PutChildren(acc, attribute, es[..|es| - 1]), ChildKey(attribute, last.0), last.1);
    }
  }

  // ---------------------------------------------------------------------------
  // parseResourceToArrayMethod
  // ---------------------------------------------------------------------------

  /** array_combine($columns, $columns) */
  function CombineColumns(columns: seq<string>): (r: seq<(Key, Value)>)
    ensures forall c :: c in columns ==> HasKey(r, KeyOf(c))
    decreases |columns|
  {
    if columns == [] then []
    else
      var c := columns[|columns| - 1];
      var acc := CombineColumns(columns[..|columns| - 1]);
      assert forall x :: x in columns[..|columns| - 1] ==> HasKey(acc, KeyOf(x));
      PutKeys(acc, KeyOf(c), Str(c));
      Put(acc, KeyOf(c), Str(c))
  }

  /**
   * parseResourceToArrayMethod: the sample when toArray() succeeds; when it throws, the declared
   * fields() mapped to themselves, and without fields() an error naming the class.
   */
  function ParseToArray(resource: Resource): (r: Result<seq<(Key, Value)>, ResourceMissData>)
    ensures resource.sample.Some? ==> r == Ok(resource.sample.value)
    ensures resource.sample.None? && resource.declaredFields.Some? ==>
      r == Ok(CombineColumns(resource.declaredFields.value))
    ensures r.Err? <==> resource.sample.None? && resource.declaredFields.None?
  {
    match resource.sample
    case Some(a) => Ok(a)
    case None =>
      match resource.declaredFields
      case Some(columns) => Ok(CombineColumns(columns))
      case None =>
        Err(ResourceMissData(resource.cls + "::toArray()方法解析失败，请创建" + resource.cls + "::fields()函数来声明返回值"))
  }

  // ---------------------------------------------------------------------------
  // fields
  // ---------------------------------------------------------------------------

  /** The message of the exception for an empty sample: the class and the scenario. */
  function MissDataMessage(cls: string, scenario: string): string
  {
    cls + "资源类没有找到" + scenario + "场景的返回值，或者返回值为空"
  }

  /** The scenario the message names: the resource's own, else the action name. */
  function ScenarioOf(resource: Resource, actionName: string): (s: string)
    ensures resource.scenario.Some? ==> s == resource.scenario.value
    ensures resource.scenario.None? ==> s == actionName
  {
    if resource.scenario.Some? then resource.scenario.value else actionName
  }

  /** The comment: the caption or null, followed by the printed options when there are any. */
  function CommentOf(resource: Resource, env: Env, attribute: Key): (c: Option<string>)
    ensures AttributeOptions(resource.constants, resource.model, attribute) == [] ==>
      c == Get(resource.labels, attribute)
    ensures var options := AttributeOptions(resource.constants, resource.model, attribute);
      var caption := Get(resource.labels, attribute);
      options != [] ==>
        c == Some((if caption.Some? then caption.value else "") + OptionsSuffix + Print(env.printR(options)))
  {
    var caption := Get(resource.labels, attribute);
    var options := AttributeOptions(resource.constants, resource.model, attribute);
    if options != [] then
      Some((if caption.Some? then caption.value else "") + OptionsSuffix + Print(env.printR(options)))
    else caption
  }

  /** The type: `[ ]` for any array value, else the rule's typeDetail, else guessType. */
  function TypeFor(resource: Resource, env: Env, attribute: Key, value: Value): (t: string)
    ensures value.Arr? ==> t == "[ ]"
    ensures !value.Arr? && HasKey(resource.rules, attribute) ==>
      t == RuleTypeDetail(Get(resource.rules, attribute).value, env.host)
    ensures !value.Arr? && !HasKey(resource.rules, attribute) ==> t == env.guessType(attribute)
  {
    if value.Arr? then "[ ]"
    else match Get(resource.rules, attribute)
      case Some(rule) => RuleTypeDetail(rule, env.host)
      case None => env.guessType(attribute)
  }

  /** Where a relation attribute goes instead of the output, if it is one. */
  function Routing(resource: Resource, env: Env, attribute: Key, value: Value): (r: Option<RelationField>)
    ensures resource.relations.Some? ==>
      (r.Some? <==> Get(resource.relations.value, attribute).Some? && Get(resource.relations.value, attribute).value != Null)
    ensures resource.relations.None? ==>
      (r.Some? <==> value.Obj? && (env.isA(value.cls, ResourceCollectionClass) || env.isA(value.cls, JsonResourceClass)))
    ensures resource.relations.Some? && r.Some? ==>
      r.value == RelationField(Get(resource.relations.value, attribute).value, CommentOf(resource, env, attribute))
    ensures resource.relations.None? && value.Obj? && env.isA(value.cls, ResourceCollectionClass) ==>
      r == Some(RelationField(env.collects(value), CommentOf(resource, env, attribute)))
    ensures (resource.relations.None? && value.Obj? && !env.isA(value.cls, ResourceCollectionClass)
             && env.isA(value.cls, JsonResourceClass)) ==>
      r == Some(RelationField(Str(value.cls), CommentOf(resource, env, attribute)))
  {
    var comment := CommentOf(resource, env, attribute);
    match resource.relations
    case Some(relations) =>
      (match Get(relations, attribute)
       case Some(v) => if v != Null then Some(RelationField(v, comment)) else None
       case None => None)
    case None =>
      if value.Obj? && env.isA(value.cls, ResourceCollectionClass) then Some(RelationField(env.collects(value), comment))
      else if value.Obj? && env.isA(value.cls, JsonResourceClass) then Some(RelationField(Str(value.cls), comment))
      else None
  }

  /** The output descriptor of an attribute that is not a relation. */
  function Describe(resource: Resource, env: Env, e: (Key, Value)): (d: OutputField)
    ensures d.fieldType == TypeFor(resource, env, e.0, e.1)
    ensures d.options == KeysOf(AttributeOptions(resource.constants, resource.model, e.0))
    ensures d.comment == CommentOf(resource, env, e.0)
  {
    OutputField(
      TypeFor(resource, env, e.0, e.1),
      KeysOf(AttributeOptions(resource.constants, resource.model, e.0)),
      CommentOf(resource, env, e.0))
  }

  /** Routing and Describe, as the per-entry functions the loop applies. */
  function RouteOf(resource: Resource, env: Env): ((Key, Value)) -> Option<RelationField>
  {
    (e: (Key, Value)) => Routing(resource, env, e.0, e.1)
  }

  function DescribeOf(resource: Resource, env: Env): ((Key, Value)) -> OutputField
  {
    (e: (Key, Value)) => Describe(resource, env, e)
  }

  /**
   * The loop of fields(): an entry that `route` sends to the relations is written into `rf`,
   * any other is written, described, into the output.
   */
  function FieldsFold(route: ((Key, Value)) -> Option<RelationField>, describe: ((Key, Value)) -> OutputField,
                      es: seq<(Key, Value)>, rf: seq<(Key, RelationField)>)
    : (seq<(Key, OutputField)>, seq<(Key, RelationField)>)
    decreases |es|
  {
    if es == [] then ([], rf)
    else
      var (data, rf') := FieldsFold(route, describe, es[..|es| - 1], rf);
      var e := es[|es| - 1];
      match route(e)
      case Some(r) => (data, Put(rf', e.0, r))
      case None => (Put(data, e.0, describe(e)), rf')
  }

  /** fields(): the result (or the exception) and the new `relationsFields`. */
  function FieldsOf(resource: Resource, env: Env, actionName: string, rf: seq<(Key, RelationField)>)
    : (Result<seq<(Key, OutputField)>, ResourceMissData>, seq<(Key, RelationField)>)
  {
    match ParseToArray(resource)
    case Err(e) => (Err(e), rf)
    case Ok(sample) =>
      var flat := Flattened(sample);
      if flat == [] then
        (Err(ResourceMissData(MissDataMessage(resource.cls, ScenarioOf(resource, actionName)))), rf)
      else
        var (data, rf') := FieldsFold(RouteOf(resource, env), DescribeOf(resource, env), flat, rf);
        (Ok(data), rf')
  }

  /** The attributes `route` leaves in the output, in order. */
  function Unrouted(route: ((Key, Value)) -> Option<RelationField>, es: seq<(Key, Value)>): (ks: seq<Key>)
    ensures forall k :: k in ks ==> k in KeysOf(es)
    decreases |es|
  {
    if es == [] then []
    else
      var e := es[|es| - 1];
      KeysOfAppend(es[..|es| - 1], [e]);
      assert es[..|es| - 1] + [e] == es;
      Unrouted(route, es[..|es| - 1]) + (if route(e).None? then [e.0] else [])
  }

  /**
   * Over distinct attributes, the output holds exactly the attributes that are not relations,
   * in the sample's order, each with its own descriptor.
   */
  lemma {:induction false} FieldsFoldOutput(route: ((Key, Value)) -> Option<RelationField>, describe: ((Key, Value)) -> OutputField,
                                            es: seq<(Key, Value)>, rf: seq<(Key, RelationField)>)
    requires DistinctKeys(es)
    ensures KeysOf(FieldsFold(route, describe, es, rf).0) == Unrouted(route, es)
    ensures forall i :: 0 <= i < |es| && route(es[i]).None? ==>
      Get(FieldsFold(route, describe, es, rf).0, es[i].0) == Some(describe(es[i]))
    decreases |es|
  {
    if es != [] {
      var init, e := es[..|es| - 1], es[|es| - 1];
      assert es == init + [e];
      DistinctKeysPrefix(init, [e]);
      FieldsFoldOutput(route, describe, init, rf);
      var data := FieldsFold(route, describe, init, rf).0;
      var data' := FieldsFold(route, describe, es, rf).0;
      assert !HasKey(data, e.0);
      if route(e).None? {
        KeysOfAppend(data, [(e.0, describe(e))]);
        GetPut(data, e.0, describe(e), e.0);
      }
      forall i | 0 <= i < |es| && route(es[i]).None?
        ensures Get(data', es[i].0) == Some(describe(es[i]))
      {
        if i < |init| {
          assert es[i] == init[i];
          assert init[i].0 != e.0;
          if route(e).None? {
            GetPut(data, e.0, describe(e), init[i].0);
          }
        }
      }
    }
  }

  /**
   * relationsFields only grows: every attribute it held is still there, and every attribute
   * `route` sends to the relations has been added.
   */
  lemma {:induction false} FieldsFoldRelations(route: ((Key, Value)) -> Option<RelationField>, describe: ((Key, Value)) -> OutputField,
                                               es: seq<(Key, Value)>, rf: seq<(Key, RelationField)>)
    ensures forall k :: HasKey(rf, k) ==> HasKey(FieldsFold(route, describe, es, rf).1, k)
    ensures forall i :: 0 <= i < |es| && route(es[i]).Some? ==> HasKey(FieldsFold(route, describe, es, rf).1, es[i].0)
    decreases |es|
  {
    if es != [] {
      var init, e := es[..|es| - 1], es[|es| - 1];
      FieldsFoldRelations(route, describe, init, rf);
      var rf' := FieldsFold(route, describe, init, rf).1;
      var rf'' := FieldsFold(route, describe, es, rf).1;
      if route(e).Some? {
        PutKeys(rf', e.0, route(e).value);
      }
      forall i | 0 <= i < |es| && route(es[i]).Some?
        ensures HasKey(rf'', es[i].0)
      {
        if i < |init| {
          assert es[i] == init[i];
        }
      }
    }
  }

  /**
   * Over distinct attributes, each attribute `route` sends to the relations ends up there with
   * the field `route` gives it, and every other attribute keeps what it held.
   */
  lemma {:induction false} FieldsFoldRelationValues(route: ((Key, Value)) -> Option<RelationField>,
      describe: ((Key, Value)) -> OutputField, es: seq<(Key, Value)>, rf: seq<(Key, RelationField)>)
    requires DistinctKeys(es)
    ensures forall i :: 0 <= i < |es| && route(es[i]).Some? ==>
      Get(FieldsFold(route, describe, es, rf).1, es[i].0) == route(es[i])
    ensures forall k :: k !in KeysOf(es) ==> Get(FieldsFold(route, describe, es, rf).1, k) == Get(rf, k)
    decreases |es|
  {
    if es != [] {
      var init, e := es[..|es| - 1], es[|es| - 1];
      assert es == init + [e];
      DistinctKeysPrefix(init, [e]);
      KeysOfAppend(init, [e]);
      FieldsFoldRelationValues(route, describe, init, rf);
      var rf' := FieldsFold(route, describe, init, rf).1;
      var rf'' := FieldsFold(route, describe, es, rf).1;
      forall k ensures Get(rf'', k) == if route(e).Some? && k == e.0 then route(e) else Get(rf', k) {
        if route(e).Some? {
          GetPut(rf', e.0, route(e).value, k);
        }
      }
      forall i | 0 <= i < |es| && route(es[i]).Some?
        ensures Get(rf'', es[i].0) == route(es[i])
      {
        if i < |init| {
          assert es[i] == init[i];
          assert init[i].0 != e.0 by {
            assert KeysOf(init)[i] == init[i].0;
          }
        }
      }
    }
  }

  /** A write never empties an array, so toArray() is empty exactly when the sample is. */
  lemma {:induction false} FlattenedEmpty(sample: seq<(Key, Value)>)
    ensures Flattened(sample) == [] <==> sample == []
    decreases |sample|
  {
    if sample != [] {
      var e := sample[|sample| - 1];
      var acc := Flattened(sample[..|sample| - 1]);
      PutKeys(acc, e.0, if e.1.Arr? then Arr([]) else e.1);
      if e.1.Arr? {
        PutChildrenKeeps(Put(acc, e.0, Arr([])), e.0, e.1.entries);
      }
    }
  }

  lemma {:induction false} PutChildrenKeeps(acc: seq<(Key, Value)>, attribute: Key, es: seq<(Key, Value)>)
    ensures forall k :: HasKey(acc, k) ==> HasKey(PutChildren(acc, attribute, es), k)
    decreases |es|
  {
    if es != [] {
      var last := es[|es| - 1];
      PutChildrenKeeps(acc, attribute, es[..|es| - 1]);
      PutKeys(PutChildren(acc, attribute, es[..|es| - 1]), ChildKey(attribute, last.0), last.1);
    }
  }

  /**
   * fields() fails exactly when toArray() fails without fields(), or the sample is empty. The
   * first failure passes on parseResourceToArrayMethod's own error; the second names the
   * resource's scenario, or else the action. Either way the relation map is untouched.
   */
  lemma FieldsOfError(resource: Resource, env: Env, actionName: string, rf: seq<(Key, RelationField)>)
    ensures FieldsOf(resource, env, actionName, rf).0.Err? <==>
      ParseToArray(resource).Err? || ParseToArray(resource).value == []
    ensures ParseToArray(resource).Ok? && ParseToArray(resource).value == [] ==>
      FieldsOf(resource, env, actionName, rf) ==
        (Err(ResourceMissData(MissDataMessage(resource.cls, ScenarioOf(resource, actionName)))), rf)
    ensures ParseToArray(resource).Err? ==>
      FieldsOf(resource, env, actionName, rf) == (Err(ParseToArray(resource).error), rf)
  {
    if ParseToArray(resource).Ok? {
      FlattenedEmpty(ParseToArray(resource).value);
    }
  }

  /**
   * A successful fields() lists, in the sample's flattened order, exactly the attributes that
   * are not relations, each with its descriptor; relationsFields keeps what it held and gains
   * every relation attribute.
   */
  lemma FieldsOfOutput(resource: Resource, env: Env, actionName: string, rf: seq<(Key, RelationField)>)
    requires FieldsOf(resource, env, actionName, rf).0.Ok?
    ensures ParseToArray(resource).Ok?
    ensures var flat := Flattened(ParseToArray(resource).value);
      var (r, rf') := FieldsOf(resource, env, actionName, rf);
      && KeysOf(r.value) == Unrouted(RouteOf(resource, env), flat)
      && (forall i :: 0 <= i < |flat| && Routing(resource, env, flat[i].0, flat[i].1).None? ==>
            Get(r.value, flat[i].0) == Some(Describe(resource, env, flat[i])))
      && (forall i :: 0 <= i < |flat| && Routing(resource, env, flat[i].0, flat[i].1).Some? ==>
            Get(rf', flat[i].0) == Routing(resource, env, flat[i].0, flat[i].1))
      && (forall k :: HasKey(rf, k) ==> HasKey(rf', k))
      && (forall k :: k !in KeysOf(flat) ==> Get(rf', k) == Get(rf, k))
  {
    var flat := Flattened(ParseToArray(resource).value);
    FlattenedDistinct(ParseToArray(resource).value);
    FieldsFoldOutput(RouteOf(resource, env), DescribeOf(resource, env), flat, rf);
    FieldsFoldRelations(RouteOf(resource, env), DescribeOf(resource, env), flat, rf);
    FieldsFoldRelationValues(RouteOf(resource, env), DescribeOf(resource, env), flat, rf);
  }

  class ResourceResolver {
    const resource: Resource
    const env: Env
    const actionName: string
    var relationsFields: seq<(Key, RelationField)>

    constructor (resource: Resource, env: Env, actionName: string)
      ensures this.resource == resource && this.env == env && this.actionName == actionName
      ensures relationsFields == []
    {
      this.resource := resource;
      this.env := env;
      this.actionName := actionName;
      relationsFields := [];
    }

    /** getRelationsFields() */
    function RelationsFields(): (r: seq<(Key, RelationField)>)
      reads this
      ensures r == relationsFields
    {
      relationsFields
    }

    /** addToRelationsFields: `$this->relationsFields[$attribute] = [type, comment]`. */
    method AddToRelationsFields(attribute: Key, fieldType: Value, comment: Option<string>)
      modifies this
      ensures relationsFields == Put(old(relationsFields), attribute, RelationField(fieldType, comment))
    {
      relationsFields := Put(relationsFields, attribute, RelationField(fieldType, comment));
    }

    /** The type of one attribute, through a fresh RuleParser when a rule names it. */
    method TypeOfAttribute(attribute: Key, value: Value) returns (t: string)
      ensures t == TypeFor(resource, env, attribute, value)
    {
      var rule := Get(resource.rules, attribute);
      if rule.Some? {
        var parser := new RuleParser(rule.value, env.host);
        t := parser.TypeDetail();
      } else {
        t := env.guessType(attribute);
      }
      if value.Arr? {
        t := "[ ]";
      }
    }

    /** fields() */
    method Fields() returns (r: Result<seq<(Key, OutputField)>, ResourceMissData>)
      modifies this
      ensures (r, relationsFields) == FieldsOf(resource, env, actionName, old(relationsFields))
    {
      var sample := ParseToArray(resource);
      if sample.Err? {
        return Err(sample.error);
      }
      var flat := FlattenSample(sample.value);
      if flat == [] {
        var scenario := actionName;
        if resource.scenario.Some? {
          scenario := resource.scenario.value;
        }
        return Err(ResourceMissData(MissDataMessage(resource.cls, scenario)));
      }
      var data: seq<(Key, OutputField)> := [];
      for i := 0 to |flat|
        invariant (data, relationsFields) == FieldsFold(RouteOf(resource, env), DescribeOf(resource, env), flat[..i], old(relationsFields))
      {
        assert flat[..i + 1][..i] == flat[..i];
        var (attribute, value) := flat[i];
        var comment := CommentOf(resource, env, attribute);
        var fieldType := TypeOfAttribute(attribute, value);
        var relation := Routing(resource, env, attribute, value);
        if relation.Some? {
          AddToRelationsFields(attribute, relation.value.fieldType, relation.value.comment);
          continue;
        }
        data := Put(data, attribute, OutputField(fieldType, KeysOf(AttributeOptions(resource.constants, resource.model, attribute)), comment));
      }
      assert flat[..|flat|] == flat;
      return Ok(data);
    }
  }
}

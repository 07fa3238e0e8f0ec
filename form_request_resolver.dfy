/**
 * FormRequestResolver: the input descriptors of an endpoint, read off its form request's rule
 * map. Every descriptor is a FieldObject; `fields()` has one per plain rule, `convertToFilter()`
 * renames them to `filter[attr]`, and the selector, sort and paging descriptors are fixed shapes
 * around the configured parameter names.
 */
module FormRequestResolving {
  import opened Php
  import opened RuleParsing
  import opened Resolving
  import opened Descriptors
  import opened ResourceResolving

  /** What the resolver reads from the form request. */
  datatype Request = Request(
    rules: seq<(Key, RuleSpec)>,         // rules()
    labels: seq<(Key, string)>,          // attributes()
    sorts: seq<(Key, Value)>,            // sorts()
    constants: seq<(Key, Value)>,        // the request's class constants
    model: Option<seq<(Key, Value)>>)    // the constants of model(), when it exists and is truthy

  /** A resolver: the request, the runtime and the user's `doc.query` settings. */
  datatype Context = Context(request: Request, env: Env, query: seq<(Key, string)>)

  const FieldsComment := "要获取的字段，推荐按需获取，多个字段用英文逗号分隔。字段释义见返回值。"
  const RelationsComment := "扩展对象字段，多个对象用英文逗号分隔。推荐按需获取。"
  const MultiSortComment := "排序字段，支持复合排序。多个排序字段用英文逗号分隔，倒序字段前面加减号\"-\"，例如：<code>sort=type,-id</code>\"表示查询结果按照type正序排列，id倒序排列。"
  const SingleSortComment := "排序字段，倒叙排列字段前面加\"-\"，例如：<code>sort=-id</code>"

  /** A PHP list of strings. */
  function StrList(ss: seq<string>): (a: seq<(Key, Value)>)
    ensures |a| == |ss| && forall i :: 0 <= i < |ss| ==> a[i] == (IntKey(i), Str(ss[i]))
  {
    ListOf(seq(|ss|, i requires 0 <= i < |ss| => Str(ss[i])))
  }

  /** array_keys, as a PHP list. */
  function KeyList<V>(a: seq<(Key, V)>): (l: seq<(Key, Value)>)
    ensures |l| == |a| && forall i :: 0 <= i < |a| ==> l[i] == (IntKey(i), KeyValue(a[i].0))
  {
    ListOf(seq(|a|, i requires 0 <= i < |a| => KeyValue(a[i].0)))
  }

  // ---------------------------------------------------------------------------
  // parseRule
  // ---------------------------------------------------------------------------

  /** `(array)$rule`: a string becomes a one-element list, a list is kept. */
  function RuleArray(spec: RuleSpec): (r: RuleSpec)
    ensures r.RuleList?
    ensures spec.RuleList? ==> r == spec
    ensures spec.RuleString? ==> r.tokens == [Text(spec.s)]
  {
    match spec
    case RuleString(s) => RuleList([Text(s)])
    case RuleList(_) => spec
  }

  /**
   * Because of the cast, a `|`-joined string reaches the parser as one token: the token holds the
   * `|`, so it is never exactly "required".
   */
  lemma JoinedRuleNotRequired(s: string, host: Host)
    requires '|' in s
    ensures !Required(ParsedTokens(RuleArray(RuleString(s)), host))
  {
    var t := LowerToken(Text(s), host);
    assert ParsedTokens(RuleArray(RuleString(s)), host) == [t];
    var i :| 0 <= i < |s| && s[i] == '|';
    assert t.s[i] == '|';
  }

  /** `$attributes[$attribute] ?? $attribute` */
  function Caption(request: Request, attribute: Key): (c: string)
    ensures HasKey(request.labels, attribute) ==> c == Get(request.labels, attribute).value
    ensures !HasKey(request.labels, attribute) ==> c == KeyStr(attribute)
  {
    match Get(request.labels, attribute)
    case Some(l) => l
    case None => KeyStr(attribute)
  }

  /** One option through the inner loop: written under its string key when an `in` value equals it. */
  function NarrowStep(acc: seq<(Key, Value)>, e: (Key, Value), ins: seq<string>): seq<(Key, Value)>
  {
    if KeyStr(e.0) in ins then Put(acc, KeyOf(KeyStr(e.0)), e.1) else acc
  }

  /** The options after the narrowing loop. */
  function Narrowed(options: seq<(Key, Value)>, ins: seq<string>): seq<(Key, Value)>
    decreases |options|
  {
    if options == [] then []
    else NarrowStep(Narrowed(options[..|options| - 1], ins), options[|options| - 1], ins)
  }

  /** The narrowing loop of parseRule: each option against each `in` value. */
  method NarrowOptions(options: seq<(Key, Value)>, ins: seq<string>) returns (tmp: seq<(Key, Value)>)
    ensures tmp == Narrowed(options, ins)
  {
    tmp := [];
    for i := 0 to |options|
      invariant tmp == Narrowed(options[..i], ins)
    {
      assert options[..i + 1][..i] == options[..i];
      var (k, v) := options[i];
      var k1 := KeyStr(k);
      ghost var before := tmp;
      for j := 0 to |ins|
        invariant tmp == if k1 in ins[..j] then Put(before, KeyOf(k1), v) else before
      {
        assert ins[..j + 1] == ins[..j] + [ins[j]];
        var v2 := ins[j];
        if k1 == v2 {
          if k1 in ins[..j] {
            PutTwice(before, KeyOf(k1), v);
          }
          tmp := Put(tmp, KeyOf(k1), v);
        }
      }
      assert ins[..|ins|] == ins;
    }
    assert options[..|options|] == options;
  }

  /** The options whose key, as a string, is one of the `in` values, in option order. */
  function KeepIn(options: seq<(Key, Value)>, ins: seq<string>): (r: seq<(Key, Value)>)
    ensures forall e :: e in r <==> e in options && KeyStr(e.0) in ins
    ensures forall k :: HasKey(r, k) ==> HasKey(options, k)
    decreases |options|
  {
    if options == [] then []
    else
      var e := options[|options| - 1];
      var init := options[..|options| - 1];
      assert options == init + [e];
      var acc := KeepIn(init, ins);
      var r := if KeyStr(e.0) in ins then acc + [e] else acc;
      EntriesKeys(r, options);
      r
  }

  /**
   * The narrowing keeps exactly the options whose key equals an `in` value as a string, in the
   * option order, with their values.
   */
  lemma {:induction false} NarrowedKeepsIn(options: seq<(Key, Value)>, ins: seq<string>)
    requires NormalKeys(options)
    ensures Narrowed(options, ins) == KeepIn(options, ins)
    decreases |options|
  {
    if options != [] {
      var e := options[|options| - 1];
      var init := options[..|options| - 1];
      assert options == init + [e];
      DistinctKeysPrefix(init, [e]);
      assert NormalKeys(init);
      NarrowedKeepsIn(init, ins);
      KeyRoundTrip(e.0);
    }
  }

  /** The descriptor parseRule builds for one attribute and its rule. */
  function RuleField(ctx: Context, attribute: Key, spec: RuleSpec): (f: FieldObject)
    ensures f.required == Bool(Text("required") in ParsedTokens(RuleArray(spec), ctx.env.host))
    ensures f.isRelation == Bool(false) && f.default == Null
    ensures f.fieldType == Str(RuleTypeDetail(RuleArray(spec), ctx.env.host))
    ensures InParam(ParsedTokens(RuleArray(spec), ctx.env.host), ctx.env.host).Some? ==>
      f.options == Arr(StrList(InParam(ParsedTokens(RuleArray(spec), ctx.env.host), ctx.env.host).value))
    ensures InParam(ParsedTokens(RuleArray(spec), ctx.env.host), ctx.env.host).None? ==>
      f.options == Arr(KeyList(AttributeOptions(ctx.request.constants, ctx.request.model, attribute)))
    ensures AttributeOptions(ctx.request.constants, ctx.request.model, attribute) == [] ==>
      f.comment == Str(Caption(ctx.request, attribute))
  {
    var host := ctx.env.host;
    var ts := ParsedTokens(RuleArray(spec), host);
    var ins := InParam(ts, host);
    var options := AttributeOptions(ctx.request.constants, ctx.request.model, attribute);
    var shown := if ins.Some? then Narrowed(options, ins.value) else options;
    var comment :=
      if options != [] then Caption(ctx.request, attribute) + OptionsSuffix + Print(ctx.env.printR(shown))
      else Caption(ctx.request, attribute);
    FieldObject(
      Bool(Required(ts)),
      Bool(false),
      Str(TypeDetailOf(ts, BoundParam(ts, "min", host), BoundParam(ts, "max", host), host)),
      Null,
      Str(comment),
      if ins.Some? then Arr(StrList(ins.value)) else Arr(KeyList(options)))
  }

  /**
   * With options and an `in:` rule, the comment prints the options narrowed to the `in` values
   * (the options as given when there is no `in:`), after the caption.
   */
  lemma RuleFieldComment(ctx: Context, attribute: Key, spec: RuleSpec)
    requires AttributeOptions(ctx.request.constants, ctx.request.model, attribute) != []
    requires NormalKeys(AttributeOptions(ctx.request.constants, ctx.request.model, attribute))
    ensures var options := AttributeOptions(ctx.request.constants, ctx.request.model, attribute);
      var ins := InParam(ParsedTokens(RuleArray(spec), ctx.env.host), ctx.env.host);
      var shown := if ins.Some? then KeepIn(options, ins.value) else options;
      RuleField(ctx, attribute, spec).comment ==
        Str(Caption(ctx.request, attribute) + OptionsSuffix + Print(ctx.env.printR(shown)))
  {
    var options := AttributeOptions(ctx.request.constants, ctx.request.model, attribute);
    var ins := InParam(ParsedTokens(RuleArray(spec), ctx.env.host), ctx.env.host);
    if ins.Some? {
      NarrowedKeepsIn(options, ins.value);
    }
  }

  /** parseRule() */
  method ParseRuleField(ctx: Context, attribute: Key, spec: RuleSpec) returns (f: FieldObject)
    ensures f == RuleField(ctx, attribute, spec)
  {
    var comment := Caption(ctx.request, attribute);
    var parser := new RuleParser(RuleArray(spec), ctx.env.host);
    var ins := parser.inList;
    var options := AttributeOptions(ctx.request.constants, ctx.request.model, attribute);
    if options != [] {
      if ins.Some? {
        options := NarrowOptions(options, ins.value);
      }
      comment := comment + OptionsSuffix + Print(ctx.env.printR(options));
    }
    var optionList := if ins.Some? then StrList(ins.value) else KeyList(options);
    f := FieldObject(Bool(parser.IsRequired()), Bool(false), Str(parser.TypeDetail()), parser.DefaultValue(),
                     Str(comment), Arr(optionList));
  }

  // ---------------------------------------------------------------------------
  // fields, convertToFilter
  // ---------------------------------------------------------------------------

  /** fields() skips attributes whose name holds a dot. */
  function Plain(): Key -> bool
  {
    (k: Key) => '.' !in KeyStr(k)
  }

  function RuleFieldOf(ctx: Context): ((Key, RuleSpec)) -> FieldObject
  {
    (e: (Key, RuleSpec)) => RuleField(ctx, e.0, e.1)
  }

  /** fields() */
  method Fields(ctx: Context) returns (data: seq<(Key, FieldObject)>)
    ensures data == PutEach(Plain(), RuleFieldOf(ctx), ctx.request.rules)
  {
    var rules := ctx.request.rules;
    if rules == [] {
      return [];
    }
    data := [];
    for i := 0 to |rules|
      invariant data == PutEach(Plain(), RuleFieldOf(ctx), rules[..i])
    {
      assert rules[..i + 1][..i] == rules[..i];
      var (attribute, rule) := rules[i];
      if '.' !in KeyStr(attribute) {
        var f := ParseRuleField(ctx, attribute, rule);
        data := Put(data, attribute, f);
      }
    }
    assert rules[..|rules|] == rules;
  }

  /**
   * fields() holds one descriptor per attribute without a dot, in rule order, and nothing else.
   */
  lemma FieldsPlain(ctx: Context)
    requires DistinctKeys(ctx.request.rules)
    ensures var data := PutEach(Plain(), RuleFieldOf(ctx), ctx.request.rules);
      && data == MapFilter(Plain(), RuleFieldOf(ctx), ctx.request.rules)
      && (forall k :: HasKey(data, k) ==> HasKey(ctx.request.rules, k) && '.' !in KeyStr(k))
      && (forall i :: 0 <= i < |ctx.request.rules| && '.' !in KeyStr(ctx.request.rules[i].0) ==>
            (ctx.request.rules[i].0, RuleField(ctx, ctx.request.rules[i].0, ctx.request.rules[i].1)) in data)
  {
    PutEachIsMapFilter(Plain(), RuleFieldOf(ctx), ctx.request.rules);
  }

  /** `$query['filterName'] . '[' . $attribute . ']'`; it holds a bracket, so it is a string key. */
  function FilterKey(filterName: string, attribute: Key): (k: Key)
    ensures k == StrKey(filterName + "[" + KeyStr(attribute) + "]")
  {
    var s := filterName + "[" + KeyStr(attribute) + "]";
    assert s[|filterName|] == '[';
    MarkedKeyIsString(s, '[');
    KeyOf(s)
  }

  /** Distinct stored attributes get distinct filter keys. */
  lemma FilterKeyInjective(filterName: string, a: Key, b: Key)
    requires NormalKey(a) && NormalKey(b) && FilterKey(filterName, a) == FilterKey(filterName, b)
    ensures a == b
  {
    var sa, sb := KeyStr(a), KeyStr(b);
    var x, y := filterName + "[" + sa + "]", filterName + "[" + sb + "]";
    assert x == y;
    assert |sa| == |sb|;
    assert sa == x[|filterName| + 1..|x| - 1];
    assert sb == y[|filterName| + 1..|y| - 1];
    KeyStrInjective(a, b);
  }

  function FilterKeyOf(filterName: string): Key -> Key
  {
    (k: Key) => FilterKey(filterName, k)
  }

  /** The `filterName` setting. */
  function FilterName(ctx: Context): string
    requires DistinctKeys(ctx.query)
  {
    Setting(ctx.query, "filterName")
  }

  /** convertToFilter() */
  method ConvertToFilter(ctx: Context) returns (tmp: seq<(Key, FieldObject)>)
    requires DistinctKeys(ctx.query)
    ensures tmp == Rename(FilterKeyOf(FilterName(ctx)), PutEach(Plain(), RuleFieldOf(ctx), ctx.request.rules))
  {
    var filterName := Setting(ctx.query, "filterName");
    var input := Fields(ctx);
    tmp := [];
    for i := 0 to |input|
      invariant tmp == Rename(FilterKeyOf(filterName), input[..i])
    {
      RenamePrefixStep(FilterKeyOf(filterName), input, i);
      var (attribute, detail) := input[i];
      assert FilterKeyOf(filterName)(attribute) == FilterKey(filterName, attribute);
      tmp := Put(tmp, FilterKey(filterName, attribute), detail);
    }
    assert input[..|input|] == input;
  }

  /**
   * convertToFilter() keeps every descriptor of fields() and their order, each under
   * `filter[attr]`.
   */
  lemma ConvertToFilterRenames(ctx: Context)
    requires DistinctKeys(ctx.query) && NormalKeys(ctx.request.rules)
    ensures var input := PutEach(Plain(), RuleFieldOf(ctx), ctx.request.rules);
      var tmp := Rename(FilterKeyOf(FilterName(ctx)), input);
      && |tmp| == |input|
      && forall i :: 0 <= i < |input| ==> tmp[i] == (FilterKey(FilterName(ctx), input[i].0), input[i].1)
  {
    var input := PutEach(Plain(), RuleFieldOf(ctx), ctx.request.rules);
    PutEachIsMapFilter(Plain(), RuleFieldOf(ctx), ctx.request.rules);
    var rename := FilterKeyOf(FilterName(ctx));
    forall i, j | 0 <= i < j < |input| ensures rename(input[i].0) != rename(input[j].0) {
      assert input[i].0 != input[j].0 by {
        PutEachDistinct(Plain(), RuleFieldOf(ctx), ctx.request.rules);
      }
      assert HasKey(input, input[i].0) && HasKey(input, input[j].0);
      NormalKeyOf(ctx.request.rules, input[i].0);
      NormalKeyOf(ctx.request.rules, input[j].0);
      if rename(input[i].0) == rename(input[j].0) {
        FilterKeyInjective(FilterName(ctx), input[i].0, input[j].0);
      }
    }
    RenameKeepsEntries(rename, input);
  }

  lemma PutEachDistinct<V, W>(keep: Key -> bool, f: ((Key, V)) -> W, es: seq<(Key, V)>)
    ensures DistinctKeys(PutEach(keep, f, es))
    decreases |es|
  {
    if es != [] {
      var e := es[|es| - 1];
      PutEachDistinct(keep, f, es[..|es| - 1]);
      if keep(e.0) {
        PutDistinct(PutEach(keep, f, es[..|es| - 1]), e.0, f(e));
      }
    }
  }

  lemma NormalKeyOf<V>(a: seq<(Key, V)>, k: Key)
    requires NormalKeys(a) && HasKey(a, k)
    ensures NormalKey(k)
  {
    var i :| 0 <= i < |a| && KeysOf(a)[i] == k;
  }

  // ---------------------------------------------------------------------------
  // viewFields, listFields, downloadFields, pageFields, sortFields
  // ---------------------------------------------------------------------------

  /** A relation descriptor as the array `['type' => …, 'comment' => …]`. */
  function RelationValue(r: RelationField): Value
  {
    Arr([(StrKey("type"), r.fieldType), (StrKey("comment"), if r.comment.Some? then Str(r.comment.value) else Null)])
  }

  function RelationsValue(relations: seq<(Key, RelationField)>): (a: seq<(Key, Value)>)
    ensures |a| == |relations| && forall i :: 0 <= i < |a| ==> a[i] == (relations[i].0, RelationValue(relations[i].1))
  {
    seq(|relations|, i requires 0 <= i < |relations| => (relations[i].0, RelationValue(relations[i].1)))
  }

  /** The selector descriptors, given the resource's attributes and relations. */
  function ViewData(query: seq<(Key, string)>, attributes: seq<Key>, relations: seq<(Key, RelationField)>)
    : (data: seq<(Key, FieldObject)>)
    requires DistinctKeys(query)
  {
    if relations != [] then ArrayMerge([FieldsSelector(query, attributes)], [RelationsSelector(query, relations)])
    else [FieldsSelector(query, attributes)]
  }

  /** The fields selector: default `*`, the attribute names as options. */
  function FieldsSelector(query: seq<(Key, string)>, attributes: seq<Key>): (e: (Key, FieldObject))
    requires DistinctKeys(query)
    ensures e.0 == KeyOf(Setting(query, "fieldsName")) && e.1.default == Str("*")
    ensures AttributeList(e.1.options, attributes)
  {
    (KeyOf(Setting(query, "fieldsName")),
     FieldObject(Bool(false), Bool(false), Str("string"), Str("*"), Str(FieldsComment),
                 Arr(ListOf(seq(|attributes|, i requires 0 <= i < |attributes| => KeyValue(attributes[i]))))))
  }

  /** The relations selector: the relation names and their descriptions as options. */
  function RelationsSelector(query: seq<(Key, string)>, relations: seq<(Key, RelationField)>): (e: (Key, FieldObject))
    requires DistinctKeys(query)
    ensures e.0 == KeyOf(Setting(query, "relationName")) && e.1.isRelation == Bool(true)
    ensures e.1.options == Arr(RelationsValue(relations))
  {
    (KeyOf(Setting(query, "relationName")),
     FieldObject(Bool(false), Bool(true), Str("string"), Null, Str(RelationsComment), Arr(RelationsValue(relations))))
  }

  /** The options of the fields selector: the attribute names as a list, `0 => first, 1 => second, …`. */
  predicate AttributeList(options: Value, attributes: seq<Key>)
  {
    && options.Arr?
    && |options.entries| == |attributes|
    && forall i :: 0 <= i < |attributes| ==> options.entries[i] == (IntKey(i), KeyValue(attributes[i]))
  }

  /**
   * The selector descriptors: the fields selector (default `*`, the attribute names as options) alone when there are no
   * relations; with relations, the fields selector and then the relations selector, each under its
   * own name, when the two names are distinct non-numeric strings.
   */
  lemma ViewDataShape(query: seq<(Key, string)>, attributes: seq<Key>, relations: seq<(Key, RelationField)>)
    requires DistinctKeys(query)
    ensures relations == [] ==>
      (&& |ViewData(query, attributes, relations)| == 1
       && ViewData(query, attributes, relations)[0].0 == KeyOf(Setting(query, "fieldsName"))
       && ViewData(query, attributes, relations)[0].1.default == Str("*")
       && AttributeList(ViewData(query, attributes, relations)[0].1.options, attributes))
    ensures var f, r := KeyOf(Setting(query, "fieldsName")), KeyOf(Setting(query, "relationName"));
      relations != [] && f.StrKey? && r.StrKey? && f != r ==>
        && |ViewData(query, attributes, relations)| == 2
        && ViewData(query, attributes, relations)[0].0 == f
        && AttributeList(ViewData(query, attributes, relations)[0].1.options, attributes)
        && ViewData(query, attributes, relations)[1].0 == r
        && ViewData(query, attributes, relations)[1].1.isRelation == Bool(true)
        && ViewData(query, attributes, relations)[1].1.options == Arr(RelationsValue(relations))
  {
    var f, r := KeyOf(Setting(query, "fieldsName")), KeyOf(Setting(query, "relationName"));
    if relations != [] && f.StrKey? && r.StrKey? && f != r {
      ArrayMergePair(FieldsSelector(query, attributes), RelationsSelector(query, relations));
    }
  }

  /** viewFields($resolver) */
  method ViewFields(ctx: Context, resolver: ResourceResolver?) returns (r: Result<seq<(Key, FieldObject)>, ResourceMissData>)
    requires DistinctKeys(ctx.query)
    modifies resolver
    ensures resolver == null ==> r == Ok(ViewData(ctx.query, [], []))
    ensures resolver != null ==>
      var (res, rf) := FieldsOf(resolver.resource, resolver.env, resolver.actionName, old(resolver.relationsFields));
      && resolver.relationsFields == rf
      && (res.Err? ==> r == Err(res.error))
      && (res.Ok? ==> r == Ok(ViewData(ctx.query, KeysOf(res.value), rf)))
  {
    if resolver == null {
      return Ok(ViewData(ctx.query, [], []));
    }
    var fields := resolver.Fields();
    if fields.Err? {
      return Err(fields.error);
    }
    var relations := resolver.RelationsFields();
    return Ok(ViewData(ctx.query, KeysOf(fields.value), relations));
  }

  /** downloadFields() */
  method DownloadFields(ctx: Context) returns (r: seq<(Key, FieldObject)>)
    requires DistinctKeys(ctx.query)
    ensures r == Rename(FilterKeyOf(FilterName(ctx)), PutEach(Plain(), RuleFieldOf(ctx), ctx.request.rules))
  {
    r := ConvertToFilter(ctx);
  }

  /** listFields($resolver): the filter descriptors, then the selectors. */
  method ListFields(ctx: Context, resolver: ResourceResolver?) returns (r: Result<seq<(Key, FieldObject)>, ResourceMissData>)
    requires DistinctKeys(ctx.query)
    modifies resolver
    ensures var filters := Rename(FilterKeyOf(FilterName(ctx)), PutEach(Plain(), RuleFieldOf(ctx), ctx.request.rules));
      && (resolver == null ==> r == Ok(ArrayMerge(filters, ViewData(ctx.query, [], []))))
      && (resolver != null ==>
            var (res, rf) := FieldsOf(resolver.resource, resolver.env, resolver.actionName, old(resolver.relationsFields));
            && resolver.relationsFields == rf
            && (res.Err? ==> r == Err(res.error))
            && (res.Ok? ==> r == Ok(ArrayMerge(filters, ViewData(ctx.query, KeysOf(res.value), rf)))))
  {
    var filters := ConvertToFilter(ctx);
    var view := ViewFields(ctx, resolver);
    if view.Err? {
      return Err(view.error);
    }
    return Ok(ArrayMerge(filters, view.value));
  }

  /** pageFields() */
  function PageFields(): (data: seq<(Key, FieldObject)>)
    ensures |data| == 2 && data[0].0 == StrKey("page") && data[1].0 == StrKey("per_page")
    ensures data[0].1.fieldType == Str("integer") && data[0].1.default == Int(1)
    ensures data[1].1.fieldType == Str("integer") && data[1].1.default == Int(15)
    ensures data[0].1.required == Bool(false) && data[1].1.required == Bool(false)
  {
    [ (StrKey("page"), FieldObject(Bool(false), Bool(false), Str("integer"), Int(1), Str("页码"), Arr([]))),
      (StrKey("per_page"), FieldObject(Bool(false), Bool(false), Str("integer"), Int(15), Str("每页显示条数"), Arr([]))) ]
  }

  /** sortFields(): one descriptor under the sort name; the comment depends on the number of sorts. */
  function SortFields(ctx: Context): (data: seq<(Key, FieldObject)>)
    requires DistinctKeys(ctx.query)
    ensures |data| == 1 && data[0].0 == KeyOf(Setting(ctx.query, "sortName"))
    ensures data[0].1.options == Arr(ctx.request.sorts)
    ensures data[0].1.comment == Str(if |ctx.request.sorts| > 1 then MultiSortComment else SingleSortComment)
    ensures data[0].1.default == Null && data[0].1.fieldType == Str("string")
  {
    var comment := if |ctx.request.sorts| > 1 then MultiSortComment else SingleSortComment;
    [(KeyOf(Setting(ctx.query, "sortName")),
      FieldObject(Bool(false), Bool(false), Str("string"), Null, Str(comment), Arr(ctx.request.sorts)))]
  }
}

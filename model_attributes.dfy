/**
 * The model traits AttributesRules and AttributesLabels: the rule map handed to the validator,
 * and the rules and labels of the columns a caller may fill. A model's own data (its attributes,
 * rules, labels, guarded list and `isFillable`) is a value here.
 */
module ModelAttributes {
  import opened Php

  /** What the traits read from their model. */
  datatype Model = Model(
    attributes: seq<(Key, Value)>,
    rules: seq<(Key, Value)>,
    labels: seq<(Key, Value)>,
    guarded: seq<string>,
    isFillable: Key -> bool)

  /** The value of an entry, unchanged. */
  function Second<V>(): ((Key, V)) -> V
  {
    (e: (Key, V)) => e.1
  }

  /**
   * The loop shared by fillableAttributesRules and fillableAttributesLabels: `$out[$column] =
   * $value` for each column `isFillable` accepts, in order.
   */
  method FillableEntries<V>(entries: seq<(Key, V)>, isFillable: Key -> bool) returns (out: seq<(Key, V)>)
    ensures out == PutEach(isFillable, Second(), entries)
  {
    out := [];
    for i := 0 to |entries|
      invariant out == PutEach(isFillable, Second(), entries[..i])
    {
      assert entries[..i + 1][..i] == entries[..i];
      var (column, value) := entries[i];
      if isFillable(column) {
        out := Put(out, column, value);
      }
    }
    assert entries[..|entries|] == entries;
  }

  /**
   * Over a PHP array (distinct keys) the result holds exactly the fillable columns, each with its
   * own value, in the order of the input.
   */
  lemma FillableExactly<V>(entries: seq<(Key, V)>, isFillable: Key -> bool)
    requires DistinctKeys(entries)
    ensures var out := PutEach(isFillable, Second(), entries);
      && out == MapFilter(isFillable, Second(), entries)
      && (forall k :: HasKey(out, k) ==> HasKey(entries, k) && isFillable(k))
      && (forall i :: 0 <= i < |entries| && isFillable(entries[i].0) ==> entries[i] in out)
  {
    PutEachIsMapFilter(isFillable, Second(), entries);
    var out := PutEach(isFillable, Second(), entries);
    forall i | 0 <= i < |entries| && isFillable(entries[i].0) ensures entries[i] in out {
      assert (entries[i].0, Second<V>()(entries[i])) == entries[i];
    }
  }

  /** When every column is fillable nothing is dropped and nothing moves. */
  lemma {:induction false} AllFillableKept<V>(entries: seq<(Key, V)>, isFillable: Key -> bool)
    requires forall i :: 0 <= i < |entries| ==> isFillable(entries[i].0)
    ensures MapFilter(isFillable, Second(), entries) == entries
    decreases |entries|
  {
    if entries != [] {
      var init := entries[..|entries| - 1];
      var e := entries[|entries| - 1];
      assert init + [e] == entries;
      AllFillableKept(init, isFillable);
      MapFilterLast(isFillable, Second(), entries);
      assert Second<V>()(e) == e.1;
    }
  }

  /** When no column is fillable the result is empty. */
  lemma {:induction false} NoneFillableEmpty<V>(entries: seq<(Key, V)>, isFillable: Key -> bool)
    requires forall i :: 0 <= i < |entries| ==> !isFillable(entries[i].0)
    ensures MapFilter(isFillable, Second(), entries) == []
    decreases |entries|
  {
    if entries != [] {
      NoneFillableEmpty(entries[..|entries| - 1], isFillable);
    }
  }

  // ---------------------------------------------------------------------------
  // AttributesRules
  // ---------------------------------------------------------------------------

  /** fillableAttributesRules() */
  method FillableAttributesRules(model: Model) returns (rules: seq<(Key, Value)>)
    ensures rules == PutEach(model.isFillable, Second(), model.rules)
  {
    rules := FillableEntries(model.rules, model.isFillable);
  }

  /** The arguments validate() passes to Validator::make: the data, the rules and the labels. */
  datatype ValidatorCall = ValidatorCall(data: seq<(Key, Value)>, rules: seq<(Key, Value)>, labels: seq<(Key, Value)>)

  /** `null == $attributes or [] == $attributes`: no attributes given means the model's own. */
  function ValidatedData(model: Model, attributes: Option<seq<(Key, Value)>>): (data: seq<(Key, Value)>)
    ensures attributes.Some? && attributes.value != [] ==> data == attributes.value
    ensures attributes.None? || attributes.value == [] ==> data == model.attributes
  {
    if attributes.None? || attributes.value == [] then model.attributes else attributes.value
  }

  /** A rule validate() keeps: its attribute is among the data's keys and is not guarded. */
  function Validated(data: seq<(Key, Value)>, guarded: seq<string>): Key -> bool
  {
    (k: Key) => HasKey(data, k) && KeyStr(k) !in guarded
  }

  /** A kept rule: a string rule gets `bail|` in front when `$isBail` is true; a list is copied. */
  function BailRule(rule: Value, isBail: Value): (r: Value)
    ensures rule.Str? && Truthy(isBail) ==> r == Str("bail|" + rule.s)
    ensures !(rule.Str? && Truthy(isBail)) ==> r == rule
  {
    if rule.Str? && Truthy(isBail) then Str("bail|" + rule.s) else rule
  }

  function BailRuleOf(isBail: Value): ((Key, Value)) -> Value
  {
    (e: (Key, Value)) => BailRule(e.1, isBail)
  }

  /** The rule map validate() builds, one rule at a time. */
  method ValidationRules(model: Model, data: seq<(Key, Value)>, isBail: Value) returns (rules: seq<(Key, Value)>)
    ensures rules == PutEach(Validated(data, model.guarded), BailRuleOf(isBail), model.rules)
  {
    var all := model.rules;
    rules := [];
    for i := 0 to |all|
      invariant rules == PutEach(Validated(data, model.guarded), BailRuleOf(isBail), all[..i])
    {
      assert all[..i + 1][..i] == all[..i];
      var (attribute, rule) := all[i];
      if !(attribute in KeysOf(data)) {
        continue;
      }
      if KeyStr(attribute) in model.guarded {
        continue;
      }
      if rule.Str? {
        rules := Put(rules, attribute, if Truthy(isBail) then Str("bail|" + rule.s) else rule);
        continue;
      }
      rules := Put(rules, attribute, rule);
    }
    assert all[..|all|] == all;
  }

  /** validate() up to the validator: the data, the rule map and the model's labels. */
  method Validate(model: Model, attributes: Option<seq<(Key, Value)>>, isBail: Value) returns (call: ValidatorCall)
    ensures call.data == ValidatedData(model, attributes)
    ensures call.rules == PutEach(Validated(call.data, model.guarded), BailRuleOf(isBail), model.rules)
    ensures call.labels == model.labels
  {
    var data := ValidatedData(model, attributes);
    var rules := ValidationRules(model, data, isBail);
    call := ValidatorCall(data, rules, model.labels);
  }

  /**
   * Over a PHP array of rules, a rule reaches the validator exactly when its attribute is in the
   * data and not guarded; a string rule carries `bail|` exactly when `$isBail` is true, and a list
   * rule is unchanged.
   */
  lemma ValidationRulesExactly(model: Model, data: seq<(Key, Value)>, isBail: Value)
    requires DistinctKeys(model.rules)
    ensures var rules := PutEach(Validated(data, model.guarded), BailRuleOf(isBail), model.rules);
      && (forall k :: HasKey(rules, k) ==> HasKey(model.rules, k) && HasKey(data, k) && KeyStr(k) !in model.guarded)
      && (forall i :: 0 <= i < |model.rules| && HasKey(data, model.rules[i].0) && KeyStr(model.rules[i].0) !in model.guarded ==>
            (model.rules[i].0, BailRule(model.rules[i].1, isBail)) in rules)
  {
    PutEachIsMapFilter(Validated(data, model.guarded), BailRuleOf(isBail), model.rules);
  }

  /** Without `$isBail` the kept rules are the model's own, untouched. */
  lemma NoBailKeepsRules(model: Model, data: seq<(Key, Value)>, isBail: Value)
    requires !Truthy(isBail)
    ensures PutEach(Validated(data, model.guarded), BailRuleOf(isBail), model.rules) ==
      PutEach(Validated(data, model.guarded), Second(), model.rules)
  {
    PutEachSameValues(Validated(data, model.guarded), BailRuleOf(isBail), Second(), model.rules);
  }

  /** Two value maps that agree on every entry give the same loop result. */
  lemma {:induction false} PutEachSameValues<V, W>(keep: Key -> bool, f: ((Key, V)) -> W, g: ((Key, V)) -> W, es: seq<(Key, V)>)
    requires forall i :: 0 <= i < |es| ==> f(es[i]) == g(es[i])
    ensures PutEach(keep, f, es) == PutEach(keep, g, es)
    decreases |es|
  {
    if es != [] {
      PutEachSameValues(keep, f, g, es[..|es| - 1]);
    }
  }

  // ---------------------------------------------------------------------------
  // AttributesLabels
  // ---------------------------------------------------------------------------

  /** The default attributesLabels(): a model that declares none has no labels. */
  function DefaultAttributesLabels(): (labels: seq<(Key, Value)>)
    ensures labels == []
  {
    []
  }

  /** fillableAttributesLabels() */
  method FillableAttributesLabels(model: Model) returns (labels: seq<(Key, Value)>)
    ensures labels == PutEach(model.isFillable, Second(), model.labels)
  {
    labels := FillableEntries(model.labels, model.isFillable);
  }
}

/**
 * RuleParser: one attribute's Laravel validation rule (`"required|max:20|in:a,b"` or a list of
 * tokens) reduced to `required`, `min`, `max`, `in`, a display type, a PHP cast type and a
 * `typeDetail` string such as `string(3,10)`.
 */
module RuleParsing {
  import opened Php

  /** One rule token: a string, or a closure rule (always callable, never a string). */
  datatype Token = Text(s: string) | Closure(id: nat)

  /** The rule as given: a `|`-joined string or a list of tokens. */
  datatype RuleSpec = RuleString(s: string) | RuleList(tokens: seq<Token>)

  /** The runtime predicates the parser consults: is_callable and class_exists on strings. */
  datatype Host = Host(isCallable: string -> bool, classExists: string -> bool)

  /** Rule type => display type, in declaration order. */
  const ViewTable: seq<(string, string)> := [
    ("string", "string"),
    ("integer", "integer"),
    ("bool", "boolean"),
    ("boolean", "boolean"),
    ("numeric", "numeric"),
    ("digits", "numeric"),
    ("digits_between", "numeric"),
    ("email", "email"),
    ("url", "url"),
    ("array", "array"),
    ("json", "json")
  ]

  /** Rule type => PHP type, in declaration order. */
  const PhpTable: seq<(string, string)> := [
    ("integer", "int"),
    ("bool", "bool"),
    ("boolean", "bool"),
    ("array", "array"),
    ("numeric", "float"),
    ("digits", "float"),
    ("digits_between", "float")
  ]

  /** The token list the constructor starts from: a string rule is exploded on `|`. */
  function SpecTokens(spec: RuleSpec): (ts: seq<Token>)
    ensures spec.RuleList? ==> ts == spec.tokens
    ensures spec.RuleString? ==>
      |ts| == |Split(spec.s, '|')| && forall i :: 0 <= i < |ts| ==> ts[i] == Text(Split(spec.s, '|')[i])
  {
    match spec
    case RuleList(tokens) => tokens
    case RuleString(s) =>
      var parts := Split(s, '|');
      seq(|parts|, i requires 0 <= i < |parts| => Text(parts[i]))
  }

  /** Is this token a callable (a closure, or a string naming a callable)? */
  predicate IsCallable(t: Token, host: Host)
  {
    t.Closure? || host.isCallable(t.s)
  }

  /** strtolower applied to one token: callables and existing class names keep their case. */
  function LowerToken(t: Token, host: Host): Token
  {
    if IsCallable(t, host) || host.classExists(t.s) then t else Text(Lower(t.s))
  }

  /** The token list after the constructor's strtolower pass. */
  function Lowered(ts: seq<Token>, host: Host): (r: seq<Token>)
    ensures |r| == |ts|
    ensures forall i :: 0 <= i < |ts| ==> r[i] == LowerToken(ts[i], host)
  {
    seq(|ts|, i requires 0 <= i < |ts| => LowerToken(ts[i], host))
  }

  /** strtolower over the token list, rewriting each token in place. */
  method LowerTokens(ts: seq<Token>, host: Host) returns (r: seq<Token>)
    ensures r == Lowered(ts, host)
  {
    r := ts;
    for i := 0 to |ts|
      invariant |r| == |ts|
      invariant forall j :: 0 <= j < i ==> r[j] == LowerToken(ts[j], host)
      invariant forall j :: i <= j < |ts| ==> r[j] == ts[j]
    {
      var t := r[i];
      if IsCallable(t, host) || host.classExists(t.s) {
        continue;
      }
      r := r[i := Text(Lower(t.s))];
    }
  }

  /** Does parseRule read the token as `name:params` with the given name? */
  predicate Names(t: Token, name: string, host: Host)
  {
    !IsCallable(t, host) && ':' in t.s && BeforeFirst(t.s, ':') == name
  }

  /** The text between the first and the second `:` of a token holding a `:`. */
  function ParamText(s: string): string
    requires ':' in s
  {
    SplitHasSep(s, ':');
    Split(s, ':')[1]
  }

  /** The parameter text of the last token named `name`: a later token overwrites an earlier one. */
  function LastParam(ts: seq<Token>, name: string, host: Host): (r: Option<string>)
    decreases |ts|
  {
    if ts == [] then None
    else
      var last := ts[|ts| - 1];
      if Names(last, name, host) then Some(ParamText(last.s))
      else LastParam(ts[..|ts| - 1], name, host)
  }

  /**
   * max, min and in come from the last token with that name: a later token overwrites an earlier
   * one, and with no such token the field stays null.
   */
  lemma LastParamIsLast(ts: seq<Token>, name: string, host: Host)
    ensures LastParam(ts, name, host).None? <==> forall i :: 0 <= i < |ts| ==> !Names(ts[i], name, host)
    ensures LastParam(ts, name, host).Some? ==> exists i :: (0 <= i < |ts| && Names(ts[i], name, host)
      && LastParam(ts, name, host).value == ParamText(ts[i].s)
      && forall j :: i < j < |ts| ==> !Names(ts[j], name, host))
  {
    var i := LastParamAt(ts, name, host);
    if i >= 0 {
      assert Names(ts[i], name, host);
    }
  }

  /** The index of the last token named `name`, or -1 when there is none. */
  lemma {:induction false} LastParamAt(ts: seq<Token>, name: string, host: Host) returns (i: int)
    ensures -1 <= i < |ts|
    ensures forall j :: i < j < |ts| ==> !Names(ts[j], name, host)
    ensures i == -1 <==> LastParam(ts, name, host).None?
    ensures i >= 0 ==> Names(ts[i], name, host) && LastParam(ts, name, host) == Some(ParamText(ts[i].s))
    decreases |ts|
  {
    if ts == [] {
      i := -1;
    } else {
      var n := |ts| - 1;
      if Names(ts[n], name, host) {
        i := n;
      } else {
        var init := ts[..n];
        assert LastParam(ts, name, host) == LastParam(init, name, host);
        i := LastParamAt(init, name, host);
        assert forall j :: 0 <= j < n ==> init[j] == ts[j];
      }
    }
  }

  /** `(int)str_ireplace(['(', ')'], '', $params)` */
  function BoundOf(params: string): int
  {
    IntCast(ReplaceAll(ReplaceAll(params, "(", ""), ")", ""))
  }

  function BoundParam(ts: seq<Token>, name: string, host: Host): Option<int>
  {
    match LastParam(ts, name, host)
    case None => None
    case Some(p) => Some(BoundOf(p))
  }

  function InParam(ts: seq<Token>, host: Host): Option<seq<string>>
  {
    match LastParam(ts, "in", host)
    case None => None
    case Some(p) => Some(Split(p, ','))
  }

  /** parseRule: one pass over the tokens assigning max, min and in. */
  method ParseRule(ts: seq<Token>, host: Host) returns (max: Option<int>, min: Option<int>, inList: Option<seq<string>>)
    ensures max == BoundParam(ts, "max", host)
    ensures min == BoundParam(ts, "min", host)
    ensures inList == InParam(ts, host)
  {
    max, min, inList := None, None, None;
    for i := 0 to |ts|
      invariant max == BoundParam(ts[..i], "max", host)
      invariant min == BoundParam(ts[..i], "min", host)
      invariant inList == InParam(ts[..i], host)
    {
      assert ts[..i + 1][..i] == ts[..i];
      var t := ts[i];
      if IsCallable(t, host) {
        continue;
      }
      if ':' !in t.s {
        continue;
      }
      SplitHasSep(t.s, ':');
      var parts := Split(t.s, ':');
      var name, params := parts[0], parts[1];
      BeforeFirstIsFirstPart(t.s, ':');
      if name == "max" {
        max := Some(BoundOf(params));
      }
      if name == "min" {
        min := Some(BoundOf(params));
      }
      if name == "in" {
        inList := Some(Split(params, ','));
      }
    }
    assert ts[..|ts|] == ts;
  }

  /** typeInRule: each string token up to its first `|`; closures contribute nothing. */
  function TypeInRule(ts: seq<Token>): (r: seq<string>)
    ensures |r| <= |ts|
    ensures forall x :: x in r <==> exists i :: 0 <= i < |ts| && ts[i].Text? && x == BeforeFirst(ts[i].s, '|')
    decreases |ts|
  {
    if ts == [] then []
    else
      var rest := TypeInRule(ts[1..]);
      assert forall i :: 1 <= i < |ts| ==> ts[i] == ts[1..][i - 1];
      if ts[0].Text? then [BeforeFirst(ts[0].s, '|')] + rest else rest
  }

  /** typeInRule keeps token order: the types of `a + b` are those of `a`, then those of `b`. */
  lemma {:induction false} TypeInRuleConcat(a: seq<Token>, b: seq<Token>)
    ensures TypeInRule(a + b) == TypeInRule(a) + TypeInRule(b)
    ensures |a| == 1 ==> TypeInRule(a) == (if a[0].Text? then [BeforeFirst(a[0].s, '|')] else [])
    decreases |a|
  {
    if a == [] {
      assert a + b == b;
    } else {
      assert (a + b)[1..] == a[1..] + b;
      TypeInRuleConcat(a[1..], b);
    }
  }

  /** The value of the first table entry, in table order, whose key is among `names`. */
  function FirstHit(table: seq<(string, string)>, names: seq<string>): (r: Option<string>)
    ensures r.None? <==> forall j :: 0 <= j < |table| ==> table[j].0 !in names
    ensures r.Some? ==> exists j :: (0 <= j < |table| && table[j].0 in names && r.value == table[j].1
      && forall k :: 0 <= k < j ==> table[k].0 !in names)
    decreases |table|
  {
    if table == [] then None
    else if table[0].0 in names then Some(table[0].1)
    else
      var r := FirstHit(table[1..], names);
      assert forall j :: 1 <= j < |table| ==> table[j] == table[1..][j - 1];
      r
  }

  /** The first name for which class_exists holds. */
  function FirstClass(names: seq<string>, host: Host): (r: Option<string>)
    ensures r.None? <==> forall i :: 0 <= i < |names| ==> !host.classExists(names[i])
    ensures r.Some? ==> r.value in names && host.classExists(r.value)
    ensures r.Some? ==> exists i :: (0 <= i < |names| && names[i] == r.value
      && forall j :: 0 <= j < i ==> !host.classExists(names[j]))
    decreases |names|
  {
    if names == [] then None
    else if host.classExists(names[0]) then Some(names[0])
    else
      var r := FirstClass(names[1..], host);
      assert forall i :: 1 <= i < |names| ==> names[i] == names[1..][i - 1];
      r
  }

  /** type(): the first view-table hit, else the first existing class token, else "string". */
  function TypeOf(ts: seq<Token>, host: Host): (t: string)
    ensures FirstHit(ViewTable, TypeInRule(ts)).Some? ==> t == FirstHit(ViewTable, TypeInRule(ts)).value
    ensures FirstHit(ViewTable, TypeInRule(ts)).None? && FirstClass(TypeInRule(ts), host).Some? ==>
      t == FirstClass(TypeInRule(ts), host).value
    ensures FirstHit(ViewTable, TypeInRule(ts)).None? && FirstClass(TypeInRule(ts), host).None? ==> t == "string"
    ensures t == "string" || (exists j :: 0 <= j < |ViewTable| && t == ViewTable[j].1)
      || (t in TypeInRule(ts) && host.classExists(t))
  {
    var names := TypeInRule(ts);
    match FirstHit(ViewTable, names)
    case Some(v) => v
    case None =>
      match FirstClass(names, host)
      case Some(c) => c
      case None => "string"
  }

  /** phpType(): the first PHP-table hit, else "string". */
  function PhpTypeOf(ts: seq<Token>): (t: string)
    ensures t in {"int", "bool", "array", "float", "string"}
    ensures t != "string" <==> exists j :: 0 <= j < |PhpTable| && PhpTable[j].0 in TypeInRule(ts)
    ensures FirstHit(PhpTable, TypeInRule(ts)).Some? ==> t == FirstHit(PhpTable, TypeInRule(ts)).value
  {
    PhpTableTypes();
    match FirstHit(PhpTable, TypeInRule(ts))
    case Some(v) => v
    case None => "string"
  }

  /** Every PHP-table entry maps to one of the four non-string types. */
  lemma PhpTableTypes()
    ensures forall j :: 0 <= j < |PhpTable| ==> PhpTable[j].1 in {"int", "bool", "array", "float"}
  {
  }

  /**
   * The positive bounds typeDetail renders: min's decimal text first when min is positive, then
   * max's; each entry reads back as its bound and holds no `,`.
   */
  function PositiveBounds(min: Option<int>, max: Option<int>): (r: seq<string>)
    ensures |r| == (if min.Some? && min.value > 0 then 1 else 0) + (if max.Some? && max.value > 0 then 1 else 0)
    ensures min.Some? && min.value > 0 ==> r[0] == IntToString(min.value) && IntCast(r[0]) == min.value
    ensures max.Some? && max.value > 0 ==> r[|r| - 1] == IntToString(max.value) && IntCast(r[|r| - 1]) == max.value
    ensures forall i :: 0 <= i < |r| ==> AllDigits(r[i])
  {
    var lo := if min.Some? && min.value > 0 then [IntToString(min.value)] else [];
    var hi := if max.Some? && max.value > 0 then [IntToString(max.value)] else [];
    assert min.Some? && min.value > 0 ==> BoundText(min.value) by {
      if min.Some? && min.value > 0 { BoundTextOf(min.value); }
    }
    assert max.Some? && max.value > 0 ==> BoundText(max.value) by {
      if max.Some? && max.value > 0 { BoundTextOf(max.value); }
    }
    lo + hi
  }

  /** The decimal text of a bound is all digits and reads back as the bound. */
  predicate BoundText(n: int)
  {
    AllDigits(IntToString(n)) && IntCast(IntToString(n)) == n
  }

  lemma BoundTextOf(n: int)
    requires n > 0
    ensures BoundText(n)
  {
    NatCastRoundTrip(n);
  }

  /** typeDetail(): the type, refined to `string(min,max)` for a bounded string. */
  function TypeDetailOf(ts: seq<Token>, min: Option<int>, max: Option<int>, host: Host): (d: string)
    ensures TypeOf(ts, host) != "string" ==> d == TypeOf(ts, host)
    ensures TypeOf(ts, host) == "string" && PositiveBounds(min, max) == [] ==> d == "string"
    ensures TypeOf(ts, host) == "string" && PositiveBounds(min, max) != [] ==>
      d == "string(" + Join(PositiveBounds(min, max), ",") + ")"
  {
    var t := TypeOf(ts, host);
    if t == "string" && PositiveBounds(min, max) != [] then "string(" + Join(PositiveBounds(min, max), ",") + ")"
    else t
  }

  /** required(): the literal token "required" is present. */
  predicate Required(ts: seq<Token>)
  {
    Text("required") in ts
  }

  /** The token list a parser built from `spec` holds. */
  function ParsedTokens(spec: RuleSpec, host: Host): seq<Token>
  {
    Lowered(SpecTokens(spec), host)
  }

  /** `(new RuleParser($rule))->typeDetail()` */
  function RuleTypeDetail(spec: RuleSpec, host: Host): string
  {
    var ts := ParsedTokens(spec, host);
    TypeDetailOf(ts, BoundParam(ts, "min", host), BoundParam(ts, "max", host), host)
  }

  /** The parser's state after construction. */
  class RuleParser {
    const host: Host
    var rule: seq<Token>
    var max: Option<int>
    var min: Option<int>
    var inList: Option<seq<string>>

    constructor (spec: RuleSpec, host: Host)
      ensures this.host == host
      ensures rule == ParsedTokens(spec, host)
      ensures max == BoundParam(rule, "max", host)
      ensures min == BoundParam(rule, "min", host)
      ensures inList == InParam(rule, host)
    {
      this.host := host;
      var ts := LowerTokens(SpecTokens(spec), host);
      rule := ts;
      var mx, mn, inl := ParseRule(ts, host);
      max, min, inList := mx, mn, inl;
    }

    predicate IsRequired()
      reads this
    {
      Required(rule)
    }

    function Type(): string
      reads this
    {
      TypeOf(rule, host)
    }

    function PhpType(): string
      reads this
    {
      PhpTypeOf(rule)
    }

    function TypeDetail(): string
      reads this
    {
      TypeDetailOf(rule, min, max, host)
    }

    /** defaultValue() is always null. */
    function DefaultValue(): (v: Value)
      ensures v == Null
    {
      Null
    }
  }

  // ---------------------------------------------------------------------------
  // Properties
  // ---------------------------------------------------------------------------

  /**
   * The tokens of a string rule hold no `|`, before or after lowering, so typeInRule keeps each
   * of them whole: `digits_between:1,5` is never read as `digits_between`.
   */
  lemma StringRuleTypesWhole(s: string, host: Host)
    ensures var ts := Lowered(SpecTokens(RuleString(s)), host);
      forall x :: x in TypeInRule(ts) <==> exists i :: 0 <= i < |ts| && x == ts[i].s
  {
    var parts := Split(s, '|');
    var ts := Lowered(SpecTokens(RuleString(s)), host);
    forall i | 0 <= i < |ts| ensures ts[i].Text? && BeforeFirst(ts[i].s, '|') == ts[i].s {
      LowerKeepsSeparatorFree(Text(parts[i]), host, '|');
      BeforeFirstWhole(ts[i].s, '|');
    }
  }

  lemma {:induction false} BeforeFirstWhole(s: string, sep: char)
    requires sep !in s
    ensures BeforeFirst(s, sep) == s
    decreases |s|
  {
    if s != [] {
      assert sep !in s[1..];
      BeforeFirstWhole(s[1..], sep);
    }
  }

  /** A lowered token stays whole under typeInRule and keeps its `|`-freeness. */
  lemma LowerKeepsSeparatorFree(t: Token, host: Host, c: char)
    requires t.Text? && c !in t.s && !('A' <= c <= 'Z') && !('a' <= c <= 'z')
    ensures LowerToken(t, host).Text? && c !in LowerToken(t, host).s
  {
    if !(IsCallable(t, host) || host.classExists(t.s)) {
      forall i | 0 <= i < |t.s| ensures Lower(t.s)[i] != c {
        assert t.s[i] != c;
      }
    }
  }

  /**
   * The table part of type() depends only on which names occur, not on their order:
   * two rules naming the same set of types get the same table hit.
   */
  lemma {:induction false} FirstHitSetOnly(table: seq<(string, string)>, a: seq<string>, b: seq<string>)
    requires forall x :: x in a <==> x in b
    ensures FirstHit(table, a) == FirstHit(table, b)
    decreases |table|
  {
    if table != [] && table[0].0 !in a {
      FirstHitSetOnly(table[1..], a, b);
    }
  }

  /** Reordering the tokens of a rule that hits the view table does not change type(). */
  lemma TypeOrderInsensitive(ts: seq<Token>, us: seq<Token>, host: Host)
    requires multiset(ts) == multiset(us)
    requires FirstHit(ViewTable, TypeInRule(ts)).Some?
    ensures TypeOf(ts, host) == TypeOf(us, host)
  {
    var a, b := TypeInRule(ts), TypeInRule(us);
    forall x ensures x in a <==> x in b {
      if x in a {
        var i :| 0 <= i < |ts| && ts[i].Text? && x == BeforeFirst(ts[i].s, '|');
        assert ts[i] in multiset(us);
        var j :| 0 <= j < |us| && us[j] == ts[i];
      }
      if x in b {
        var j :| 0 <= j < |us| && us[j].Text? && x == BeforeFirst(us[j].s, '|');
        assert us[j] in multiset(ts);
        var i :| 0 <= i < |ts| && ts[i] == us[j];
      }
    }
    FirstHitSetOnly(ViewTable, a, b);
  }

  /** typeDetail() always begins with type() for a string type, and equals it otherwise. */
  lemma TypeDetailRefinesType(ts: seq<Token>, min: Option<int>, max: Option<int>, host: Host)
    ensures TypeOf(ts, host) <= TypeDetailOf(ts, min, max, host)
    ensures TypeDetailOf(ts, min, max, host) != TypeOf(ts, host) ==>
      TypeOf(ts, host) == "string" && ((min.Some? && min.value > 0) || (max.Some? && max.value > 0))
  {
    var t, b := TypeOf(ts, host), PositiveBounds(min, max);
    if t == "string" && b != [] {
      StringPrefix(Join(b, ","));
    }
  }

  lemma StringPrefix(x: string)
    ensures "string" <= "string(" + x + ")"
  {
    assert ("string(" + x + ")")[..6] == "string";
  }
}

/**
 * Resolver: what the form-request and resource resolvers share — the `doc.query` configuration
 * with its defaults, the class-constant lookup and the HTML wrapping of printed option lists.
 */
module Resolving {
  import opened Php

  /** The configuration defaults, in declaration order. */
  const Defaults: seq<(Key, string)> := [
    (StrKey("fieldsName"), "fields"),
    (StrKey("filterName"), "filter"),
    (StrKey("relationName"), "relations"),
    (StrKey("sortName"), "sort")
  ]

  /** config(): the defaults merged with the user's `doc.query` settings (a later string key wins). */
  function Config(user: seq<(Key, string)>): seq<(Key, string)>
  {
    ArrayMerge(Defaults, user)
  }

  /** The names the resolvers read from the configuration. */
  predicate IsSetting(name: string)
  {
    name in {"fieldsName", "filterName", "relationName", "sortName"}
  }

  /** The default of each setting. */
  function DefaultOf(name: string): (v: string)
    requires IsSetting(name)
    ensures Get(Defaults, StrKey(name)) == Some(v)
  {
    if name == "fieldsName" then DefaultAt(0); "fields"
    else if name == "filterName" then DefaultAt(1); "filter"
    else if name == "relationName" then DefaultAt(2); "relations"
    else DefaultAt(3); "sort"
  }

  /** Each default is found under its own name: the four names are distinct. */
  lemma DefaultAt(i: nat)
    requires i < |Defaults|
    ensures Get(Defaults, Defaults[i].0) == Some(Defaults[i].1)
  {
    assert DistinctKeys(Defaults);
    GetAt(Defaults, i);
  }

  /**
   * Each setting is the user's value when the user gives one, and its default otherwise;
   * so every setting is always present.
   */
  lemma ConfigSetting(user: seq<(Key, string)>, name: string)
    requires IsSetting(name) && DistinctKeys(user)
    ensures Get(Config(user), StrKey(name)) ==
      if HasKey(user, StrKey(name)) then Get(user, StrKey(name)) else Some(DefaultOf(name))
    ensures HasKey(Config(user), StrKey(name))
  {
    ArrayMergeOverride(Defaults, user, StrKey(name));
  }

  /** `$query[$name]` for one of the settings. */
  function Setting(user: seq<(Key, string)>, name: string): (v: string)
    requires IsSetting(name) && DistinctKeys(user)
    ensures HasKey(user, StrKey(name)) ==> Get(user, StrKey(name)) == Some(v)
    ensures !HasKey(user, StrKey(name)) ==> v == DefaultOf(name)
  {
    ConfigSetting(user, name);
    Get(Config(user), StrKey(name)).value
  }

  /** hasConstInClass: the class declares the constant and its value is an array. */
  function HasConstInClass(constants: seq<(Key, Value)>, name: string): (b: bool)
    ensures b <==> HasKey(constants, StrKey(name)) && Get(constants, StrKey(name)).value.Arr?
  {
    match Get(constants, StrKey(name))
    case Some(v) => v.Arr?
    case None => false
  }

  /**
   * print(): the `print_r` text (a parameter here) with newlines turned into `<br/>`, then spaces
   * into `&nbsp;`, wrapped in `<br><code>` … `</code>`.
   */
  function Print(printed: string): (r: string)
    ensures |r| >= |"<br><code></code>"|
    ensures r[..10] == "<br><code>" && r[|r| - 7..] == "</code>"
    ensures ' ' !in r && '\n' !in r
  {
    var noNewline := ReplaceAll(printed, "\n", "<br/>");
    var escaped := ReplaceAll(noNewline, " ", "&nbsp;");
    ReplaceAllRemoves(printed, '\n', "<br/>", '\n');
    ReplaceAllRemoves(noNewline, ' ', "&nbsp;", ' ');
    ReplaceAllRemoves(noNewline, ' ', "&nbsp;", '\n');
    var r := "<br><code>" + escaped + "</code>";
    assert r[..10] == "<br><code>";
    assert r[|r| - 7..] == "</code>";
    r
  }

  /** print()'s first replacement on one character. */
  function EscapeNewline(c: char): string
  {
    if c == '\n' then "<br/>" else [c]
  }

  /** print()'s second replacement on one character. */
  function EscapeSpace(c: char): string
  {
    if c == ' ' then "&nbsp;" else [c]
  }

  /** What print() makes of one character: a newline becomes `<br/>`, a space `&nbsp;`. */
  function Escape(c: char): (r: string)
    ensures c != '\n' && c != ' ' ==> r == [c]
  {
    if c == '\n' then "<br/>" else if c == ' ' then "&nbsp;" else [c]
  }

  /**
   * print() rewrites the printed text character by character (the `<br/>` a newline becomes holds
   * no space, so the second replacement leaves it alone) and wraps the result.
   */
  lemma PrintEscapes(printed: string)
    ensures Print(printed) == "<br><code>" + FlatMap(printed, Escape) + "</code>"
  {
    ReplaceCharFlatMap(printed, '\n', "<br/>", EscapeNewline);
    ReplaceCharFlatMap(FlatMap(printed, EscapeNewline), ' ', "&nbsp;", EscapeSpace);
    forall c ensures Escape(c) == FlatMap(EscapeNewline(c), EscapeSpace) {
      if c == '\n' {
        FlatMapKeeps("<br/>", EscapeSpace);
      } else {
        FlatMapOne(c, EscapeSpace);
      }
    }
    FlatMapCompose(printed, EscapeNewline, EscapeSpace, Escape);
  }

  /**
   * attributeOptions: the array constant named by the upper-cased attribute, looked up first in
   * the class itself and then in its model. `model` is None when there is no `model()` method or
   * it returns a falsy value; a constant that is not an array is passed over.
   */
  function AttributeOptions(own: seq<(Key, Value)>, model: Option<seq<(Key, Value)>>, attribute: Key): (r: seq<(Key, Value)>)
    ensures HasConstInClass(own, Upper(KeyStr(attribute))) ==>
      r == Get(own, StrKey(Upper(KeyStr(attribute)))).value.entries
    ensures (!HasConstInClass(own, Upper(KeyStr(attribute))) && model.Some?
             && HasConstInClass(model.value, Upper(KeyStr(attribute)))) ==>
      r == Get(model.value, StrKey(Upper(KeyStr(attribute)))).value.entries
    ensures r != [] ==>
      (HasConstInClass(own, Upper(KeyStr(attribute)))
       || (model.Some? && HasConstInClass(model.value, Upper(KeyStr(attribute)))))
  {
    var name := Upper(KeyStr(attribute));
    if HasConstInClass(own, name) then AsArray(Get(own, StrKey(name)).value)
    else if model.Some? && HasConstInClass(model.value, name) then AsArray(Get(model.value, StrKey(name)).value)
    else []
  }
}

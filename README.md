# laravel-smart-common, modelled in Dafny

This project models the core of laravel-smart-common, a Laravel helper package. The package
generates API documentation from an application's own code, and it filters JSON responses by
a `fields` selector. The model covers four pieces:

- **Rule to descriptor resolution.** `RuleParser` reads one Laravel validation rule
  (`"required|max:20|in:a,b"` or a list of tokens). From it, it derives `required`, `min`, `max`,
  `in`, a display type, a PHP cast type and a `typeDetail` string such as `string(3,10)`.
  - `FormRequestResolver` turns a form request's rule map into input field descriptors: plain
    fields, `filter[...]` fields, the `fields` and `relations` selectors, `sort`, `page` and
    `per_page`.
  - `ResourceResolver` flattens a resource's sample output, describes each attribute and moves
    relation attributes into a side map.
  - `ActionComment` picks the descriptor set from the endpoint's shape.
  - `FieldObject` and `Resolver` give the descriptor defaults and the configured query names.
- **Response field projection** (`ApiActiveFilter`). It parses the comma-separated selector of
  dot paths, handles the paginated (`links`/`data`) and wrapped bodies, and filters a nested
  array recursively.
- **Request and resource helpers.**
  - Sort strings and relation paths of a request (`Parameters`).
  - `required`/`nullable` stripping (`Tools`).
  - Rule-driven casting of a resource's output (`Casting`).
- **Names, documents and models.**
  - SDK class names and URI/namespace parts of a route (`SdkRestNameService`, `UriParserService`).
  - The append-only Markdown builder (`MarkdownCreator`).
  - Fillable and guarded rule filtering (`AttributesRules`, `AttributesLabels`, `ModelAdapter`,
    `HttpRequestAdapter`).
  - The action list of a controller (`ControllerComment`).

## How PHP is represented

- A PHP array is an ordered list of entries `seq<(Key, V)>`, with `Key = IntKey | StrKey`
  (module `Php`).
  - `Put` is `$a[$k] = $v`: it replaces the entry in place, or appends it.
  - `ArrayMerge` is `array_merge`: integer keys are renumbered and appended, and a later string
    key overrides the earlier one in place.
  - `PutEach` is the common loop `foreach (... as $k => $v) if (keep) $out[$k] = f(...)`.
    `PutEachIsMapFilter` shows that over distinct keys it is the plain filter-and-map `MapFilter`.
- A PHP value is the datatype `Value`: `Null`, `Bool`, `Int`, `Float` (a real), `Str`, `Arr` and
  `Obj` (a class name and an identity).
- `explode`/`implode` are `Split`/`Join`, with their round-trip lemmas. `trim`, `str_replace`,
  `str_ireplace`, `strtolower`/`strtoupper` (ASCII), `ucfirst` and the `(int)` cast of a decimal
  string are written out in `Php` as well.
- Code that changes state step by step is a method with a loop. It is proved equal to a
  specification function, and the properties are lemmas about that function.
- Objects whose fields change are classes:
  - `RuleParser`, `ResourceResolver` (its `relationsFields`), `ActionComment`;
  - `MarkdownCreator` (`text`);
  - the adapters (the `columns` cache);
  - `ControllerComment` (the `actions` cache).
- Calls into code outside the model are parameters or record fields of arrow type:
  - `is_callable`, `class_exists`;
  - `Str::camel`, `print_r`, `guessType`;
  - the class-ancestor test;
  - the float and string casts;
  - `isFillable`;
  - the database schema;
  - reflection.

## Model

| member | source | states |
|---|---|---|
| RuleParsing.SpecTokens | src/Comment/RuleParser.php:58-65 | A string rule becomes its pieces between bar characters, one text token each; a list rule keeps its tokens. |
| RuleParsing.LowerTokens | src/Comment/RuleParser.php:243-254 | The tokens, each lowercased unless it is callable or names an existing class; closures are left alone; count and order are unchanged. |
| RuleParsing.ParseRule | src/Comment/RuleParser.php:200-222 | `max`, `min` and `in` are the parameters of the last matching token (`BoundParam`, `InParam`). |
| RuleParsing.LastParamIsLast | src/Comment/RuleParser.php:200-222 | A parameter is absent iff no token names it. Otherwise it is the text after the first `:` (up to the next `:`) of the LAST token naming it. |
| RuleParsing.TypeInRule | src/Comment/RuleParser.php:177-195 | The rule types are exactly the part of each text token before its first bar character. Closures contribute nothing. |
| RuleParsing.TypeInRuleConcat | src/Comment/RuleParser.php:177-195 | The rule types follow token order: those of a concatenation are those of each part in turn, and one token gives its text before the first bar, or nothing for a closure. |
| RuleParsing.StringRuleTypesWhole | src/Comment/RuleParser.php:177-195 | For a string rule, every token is kept whole, so `digits_between:1,5` never counts as `digits_between`. |
| RuleParsing.FirstHit | src/Comment/RuleParser.php:80-96 | The first table entry whose key is among the rule types, in table order. Nothing is returned iff no key is. |
| RuleParsing.FirstClass | src/Comment/RuleParser.php:89-95 | The first rule type, in order, for which the class exists: no earlier type names an existing class. Nothing iff none exists. |
| RuleParsing.TypeOf | src/Comment/RuleParser.php:80-96 | type(): the view type of the first table hit. Without a hit, the first existing class token. Otherwise `"string"`. |
| RuleParsing.TypeOrderInsensitive | src/Comment/RuleParser.php:80-96 | Reordering the tokens does not change a table-derived type. |
| RuleParsing.PhpTypeOf | src/Comment/RuleParser.php:102-111 | phpType() is the type of the first php-table hit, one of int/bool/array/float/string. It is `"string"` when no key of the table is a rule type. |
| RuleParsing.PositiveBounds | src/Comment/RuleParser.php:117-137 | One entry per positive bound: the positive `min` first, then the positive `max`. Each is written in digits and reads back as that bound. |
| RuleParsing.TypeDetailOf | src/Comment/RuleParser.php:117-137 | typeDetail() is type(), except that a `string` type with a positive bound becomes `string(` + the positive bounds joined by `,` + `)`. |
| RuleParsing.TypeDetailRefinesType | src/Comment/RuleParser.php:117-137 | type() is a prefix of typeDetail(). They differ only for `string` with a positive bound. |
| RuleParsing.RuleParser.constructor | src/Comment/RuleParser.php:58-65 | The parser holds the lowered tokens and their `max`, `min` and `in`. |
| RuleParsing.RuleParser.DefaultValue | src/Comment/RuleParser.php:169-172 | defaultValue() is always null. |
| FormRequestResolving.RuleArray | src/Comment/FormRequestResolver.php:42 | `(array)$rule`: a string rule becomes a one-token list; a list is unchanged. |
| FormRequestResolving.JoinedRuleNotRequired | src/Comment/FormRequestResolver.php:42 | Because of the `(array)` cast, a bar-joined string rule is never `required`. |
| FormRequestResolving.Caption | src/Comment/FormRequestResolver.php:214-215 | The label of the attribute, or its name when it has none. |
| FormRequestResolving.NarrowOptions | src/Comment/FormRequestResolver.php:223-235 | The loop equals the specification `Narrowed`. |
| FormRequestResolving.NarrowedKeepsIn | src/Comment/FormRequestResolver.php:223-235 | Narrowing keeps exactly the options whose key, as a string, is in the `in` list, in option order (`KeepIn`). |
| FormRequestResolving.KeepIn | src/Comment/FormRequestResolver.php:223-235 | An entry is kept iff it is an option whose key string is in the `in` list. |
| FormRequestResolving.RuleField | src/Comment/FormRequestResolver.php:212-248 | The descriptor's parts: `required`, `type` = typeDetail of the cast rule, options (the `in` list, else the option keys), and the caption when there are no options. |
| FormRequestResolving.RuleFieldComment | src/Comment/FormRequestResolver.php:220-239 | With options, the comment is the caption, the suffix and the printed options, narrowed by `in` when there is one. |
| FormRequestResolving.ParseRuleField | src/Comment/FormRequestResolver.php:212-248 | parseRule() builds the descriptor `RuleField`. |
| FormRequestResolving.Fields | src/Comment/FormRequestResolver.php:32-47 | fields() is the loop `PutEach` over the rule map, skipping names containing `.`. |
| FormRequestResolving.FieldsPlain | src/Comment/FormRequestResolver.php:32-47 | Over distinct keys the result holds exactly the dot-free attributes, each with its descriptor, in rule order. |
| FormRequestResolving.FilterKey | src/Comment/FormRequestResolver.php:185-200 | The key `filterName[attribute]`. |
| FormRequestResolving.FilterKeyInjective | src/Comment/FormRequestResolver.php:185-200 | Distinct attributes get distinct filter keys. |
| FormRequestResolving.ConvertToFilter | src/Comment/FormRequestResolver.php:185-200 | convertToFilter() renames every key of fields(). |
| FormRequestResolving.ConvertToFilterRenames | src/Comment/FormRequestResolver.php:185-200 | Same length; entry i is `(filter[key_i], descriptor_i)`. Descriptors and order are unchanged. |
| FormRequestResolving.ViewDataShape | src/Comment/FormRequestResolver.php:83-113 | Without relations: one `fields` descriptor with default `*`, whose options list the attribute names in order. With relations: that descriptor plus a relation descriptor whose options are the relations. |
| FormRequestResolving.ViewFields | src/Comment/FormRequestResolver.php:83-113 | viewFields() with or without a resource resolver. A resolver error is passed on; the resolver's relation map is updated. |
| FormRequestResolving.DownloadFields | src/Comment/FormRequestResolver.php:70-73 | downloadFields() is convertToFilter(). |
| FormRequestResolving.ListFields | src/Comment/FormRequestResolver.php:56-62 | listFields() is array_merge(convertToFilter(), viewFields()). |
| FormRequestResolving.PageFields | src/Comment/FormRequestResolver.php:119-139 | `page` (integer, default 1) and `per_page` (integer, default 15), neither required. |
| FormRequestResolving.SortFields | src/Comment/FormRequestResolver.php:144-164 | One `sort` descriptor: options are the allowed sorts, and the comment depends on `count(sorts) > 1`. |
| Resolving.DefaultOf | src/Comment/Resolver.php:73-81 | The four defaults: fields, filter, relations, sort. |
| Resolving.ConfigSetting | src/Comment/Resolver.php:73-81 | A user value overrides the default for its key; every setting is present. |
| Resolving.Setting | src/Comment/Resolver.php:73-81 | A setting is the user's value when given, else the default. |
| Resolving.HasConstInClass | src/Comment/Resolver.php:35-39 | True iff the constant exists and its value is an array. |
| Resolving.Print | src/Comment/Resolver.php:60-67 | The result is wrapped in `<br><code>`…`</code>` and holds no space and no newline. |
| Resolving.PrintEscapes | src/Comment/Resolver.php:60-67 | Inside the wrapper, each character of the printed text is kept, except that a newline becomes `<br/>` and a space becomes `&nbsp;`. |
| Resolving.AttributeOptions | src/Comment/FormRequestResolver.php:256-279 | The upper-cased attribute's array constant of the request class, else of the model, else none. |
| Descriptors.Isset | src/Comment/FieldObject.php:16-21 | A present non-null value, else the default (a null counts as absent). |
| Descriptors.NewFieldObject | src/Comment/FieldObject.php:14-22 | Each of the six fields is its `isset` value or its default. |
| Descriptors.EmptyDefaults | src/Comment/FieldObject.php:16-21 | The defaults: false, false, `String`, null, null, []. |
| Descriptors.OnlySixFields | src/Comment/FieldObject.php:14-22 | Inputs agreeing on the six keys give the same descriptor, whatever else they hold. |
| Descriptors.ToArrayRoundTrip | src/Comment/FieldObject.php:14-22 | A descriptor with non-null flags, type and options is rebuilt from its own array form. |
| ResourceResolving.FlattenSample | src/Comment/ResourceResolver.php:168-186 | The flattening loop equals `Flattened`. |
| ResourceResolving.FlattenedIsExpand | src/Comment/ResourceResolver.php:168-186 | When no keys collide, flattening is `attr => []` followed by `attr.i => v` for array values. Scalars are copied. Order is kept. |
| ResourceResolving.FlattenedDistinct | src/Comment/ResourceResolver.php:168-186 | The flattened array never repeats a key. |
| ResourceResolving.FlattenedEmpty | src/Comment/ResourceResolver.php:59-68 | The flattened array is empty iff the sample is. |
| ResourceResolving.ParseToArray | src/Comment/ResourceResolver.php:144-162 | The sample output; else the declared columns mapped to themselves; else `ResourceMissDataException`. |
| ResourceResolving.ScenarioOf | src/Comment/ResourceResolver.php:59-68 | The message names the scenario, or the action when there is none. |
| ResourceResolving.TypeFor | src/Comment/ResourceResolver.php:88-98 | `[ ]` for any array value. Otherwise typeDetail of the rule, or guessType without one. |
| ResourceResolving.Routing | src/Comment/ResourceResolver.php:100-117 | An attribute goes to the relation map iff relations() lists it with a non-null type. Without relations(), iff its value is a collection or a JSON resource. The stored value is the commented relation type, the collection's class, or the resource's class. |
| ResourceResolving.CommentOf | src/Comment/ResourceResolver.php:82-86 | The label alone without options. With options: the label (or ""), the options suffix and the escaped `print_r` of the options. |
| ResourceResolving.Describe | src/Comment/ResourceResolver.php:120-124 | An output entry: its type, the option keys and its comment. |
| ResourceResolving.FieldsOfError | src/Comment/ResourceResolver.php:57-68 | fields() fails iff there is no data or the flattened data is empty. When parseResourceToArrayMethod fails its own error is passed on; when the data is empty the message names the scenario, or else the action. Either way the relation map is untouched. |
| ResourceResolving.FieldsOfOutput | src/Comment/ResourceResolver.php:57-129 | The output keys are the unrouted flattened keys, in order, each described. Each routed key holds its routed value in the relation map. Keys that are not flattened keys keep their old value. |
| ResourceResolving.FieldsFoldRelationValues | src/Comment/ResourceResolver.php:100-117 | Over distinct keys, the loop leaves every routed key holding its routed value and every other key as it was. |
| ResourceResolving.ResourceResolver.AddToRelationsFields | src/Comment/ResourceResolver.php:194-200 | The field gains (or replaces) one entry `attribute => {type, comment}`. |
| ResourceResolving.ResourceResolver.RelationsFields | src/Comment/ResourceResolver.php:135-138 | getRelationsFields() is the accumulated field. |
| ResourceResolving.ResourceResolver.TypeOfAttribute | src/Comment/ResourceResolver.php:88-98 | The loop's type choice equals `TypeFor`. |
| ResourceResolving.ResourceResolver.Fields | src/Comment/ResourceResolver.php:57-129 | fields() returns `FieldsOf` and leaves the relation map as `FieldsOf` says, starting from the old map. |
| ActiveFilter.RemoveEmpty | src/Middleware/ApiActiveFilter.php:238-249 | Exactly the entries that are not blank after trimming, untrimmed. A single entry is kept iff it is not blank. |
| ActiveFilter.RemoveEmptyConcat | src/Middleware/ApiActiveFilter.php:238-249 | Filtering a concatenation filters each part: order is kept. |
| ActiveFilter.FieldArray | src/Middleware/ApiActiveFilter.php:183-192 | `['*']` for an empty selector. Otherwise the non-blank comma pieces, none holding a comma. |
| ActiveFilter.Unique | src/Middleware/ApiActiveFilter.php:199-212 | Same members, no repeats. |
| ActiveFilter.ExtractRootFields | src/Middleware/ApiActiveFilter.php:199-212 | Empty if a root is `*`. Otherwise exactly the distinct roots (the text before the first `.`). |
| ActiveFilter.TopRoots | src/Middleware/ApiActiveFilter.php:80 | The extracted roots when there are any, else `['*']`; never empty. |
| ActiveFilter.ExtractFieldsFor | src/Middleware/ApiActiveFilter.php:220-231 | Exactly the distinct suffixes of the paths starting with `root.`. |
| ActiveFilter.EmptySelectorKeepsAll | src/Middleware/ApiActiveFilter.php:183-192 | An empty selector selects everything (`['*']`). |
| ActiveFilter.FilterItemOf | src/Middleware/ApiActiveFilter.php:113-149 | Unchanged when the roots are `[]` or `['*']`; otherwise an array. |
| ActiveFilter.FilterItemSelected | src/Middleware/ApiActiveFilter.php:120-148 | With narrowing roots, a key is in the result iff some entry with that key was selected by the roots in force when it was reached. The first entry is selected iff its key is a root. |
| ActiveFilter.FilterItem | src/Middleware/ApiActiveFilter.php:113-149 | The recursive loop equals `FilterItemOf`, including the narrowed roots and prefix that carry over to later siblings. |
| ActiveFilter.FilterEntry | src/Middleware/ApiActiveFilter.php:122-145 | One turn of the loop moves the walk state from the first `i` entries to the first `i+1`, as `WalkOf` gives. |
| ActiveFilter.FilterItemKeeps | src/Middleware/ApiActiveFilter.php:120-148 | The output keys are a subsequence of the input keys; scalar string-keyed values are copied verbatim. |
| ActiveFilter.WalkFlat | src/Middleware/ApiActiveFilter.php:120-148 | On a flat item, exactly the selected entries are kept, in order. |
| ActiveFilter.FilterList | src/Middleware/ApiActiveFilter.php:94-104 | filter() renumbers the list from 0 and filters every element from the top roots. |
| ActiveFilter.HandleOf | src/Middleware/ApiActiveFilter.php:60-84 | Paginated bodies: only `data` is filtered, and a non-array `data` gives nothing. A configured wrap key that is absent: the body is unchanged. Otherwise the unwrapped body is filtered as a list when it has an item 0, else as one item. |
| ActiveFilter.HandlePaginated | src/Middleware/ApiActiveFilter.php:60-70 | Every key but `data` is untouched. |
| ActiveFilter.HandleUnwraps | src/Middleware/ApiActiveFilter.php:66-84 | With the wrap key present, the inner value is filtered and not re-wrapped: as a list when it has an item 0, as one item otherwise. |
| ActiveFilter.Handle | src/Middleware/ApiActiveFilter.php:46-85 | handle() on the decoded body equals `HandleOf`. |
| ActionComments.SystemResourceLeadingBackslash | src/Comment/ActionComment.php:495-504 | isSystemResource trims `\`, so a leading `\` does not change the answer. |
| ActionComments.CustomResourceExactly | src/Comment/ActionComment.php:512-520 | Outside the two framework collections, a class is a custom resource iff JsonResource is among its ancestors. |
| ActionComments.PaginatorClassOrDescendant | src/Comment/ActionComment.php:528-536 | AbstractPaginator itself is a paginator; any other class is one iff AbstractPaginator is among its ancestors. |
| ActionComments.HasPaginatorConcat | src/Comment/ActionComment.php:543-552 | No `@see` classes give false; on a concatenation the answer is true iff either part holds a paginator. |
| ActionComments.CollectionActionUsesLast | src/Comment/ActionComment.php:607-617 | No `@return` classes give false; otherwise only the last class (array_pop) decides, by descending from ResourceCollection. |
| ActionComments.ActionComment.HasSort | src/Comment/ActionComment.php:559-570 | hasSort() holds iff the sort descriptor sortFields() would add lists at least one sort option. |
| ActionComments.SystemResourceNotCustom | src/Comment/ActionComment.php:495-520 | The two collection classes (after trimming `\`) are system resources and never custom ones. |
| ActionComments.UnSnake | src/Comment/ActionComment.php:150-153 | One separator, taken as literal text, per lower-upper pair; no upper-case letter is left. |
| ActionComments.UnSnakeConcat | src/Comment/ActionComment.php:150-153 | Converting a concatenation converts each part, with a separator at the seam exactly when a lower-case letter meets an upper-case one. One character is lower-cased. |
| ActionComments.UnSnakeSnake | src/Comment/ActionComment.php:150-153 | A name without upper-case letters is unchanged. |
| ActionComments.ViewOf | src/Comment/ActionComment.php:116-118 | The resource resolver's error, or on success the view descriptors built from the fields it returns. |
| ActionComments.InputData | src/Comment/ActionComment.php:104-122 | Non-GET: fields(). GET on a single item: viewFields(). Errors are passed on. |
| ActionComments.PaginatedListHasPages | src/Comment/ActionComment.php:105-115 | A paginated list ends with the `page` and `per_page` descriptors. |
| ActionComments.SortedListHasSort | src/Comment/ActionComment.php:105-115 | A sorted list carries the sort descriptor. |
| ActionComments.ActionComment.Input | src/Comment/ActionComment.php:98-129 | Nothing without a request. Otherwise `{class, input}` as `InputData` says for the endpoint's shape. |
| ActionComments.ActionComment.Output | src/Comment/ActionComment.php:137-148 | Null without a resource resolver; else `{class, output: fields()}`. |
| RequestParameters.Filter | src/Traits/Request/Parameters.php:15-18 | `(array)` of the `filter` input: [] when absent, the array itself, or a one-element list. |
| RequestParameters.Fields | src/Traits/Request/Parameters.php:129-132 | The `fields` input, `*` when absent. |
| RequestParameters.StringParam | src/Traits/Request/Parameters.php:23-26 | A string input, `""` when absent. |
| RequestParameters.SplitRelations | src/Traits/Request/Parameters.php:139-159 | The while loop equals `SplitRelationsOf`. |
| RequestParameters.SplitRelationsOf | src/Traits/Request/Parameters.php:139-159 | Ends with the whole string; a string without `.` gives just itself. |
| RequestParameters.SplitRelationsPrefixes | src/Traits/Request/Parameters.php:139-159 | A dot path `a.b.c` gives every dot prefix, `a`, `a.b`, `a.b.c`. |
| RequestParameters.FilteredRelations | src/Traits/Request/Parameters.php:42-66 | The nested loops equal `FilteredRelationsOf`. |
| RequestParameters.FilteredRelationsOfPath | src/Traits/Request/Parameters.php:42-66 | A path gives the camel-cased form of each of its prefixes. |
| RequestParameters.FilteredRelationsConcat | src/Traits/Request/Parameters.php:42-66 | Comma pieces are expanded one after another, keeping duplicates. |
| RequestParameters.FalsyPiece | src/Traits/Request/Parameters.php:42-66 | An empty (or `"0"`) piece adds nothing. |
| RequestParameters.DefaultSort | src/Traits/Request/Parameters.php:86-91 | An empty sort defaults to the first allowed column, plus `,` and the second one when there is one. |
| RequestParameters.Stripped | src/Traits/Request/Parameters.php:112-114 | Each allowed column with `-` trimmed from both ends. |
| RequestParameters.StrippedTwice | src/Traits/Request/Parameters.php:112-114 | Stripping is idempotent. |
| RequestParameters.SortToken | src/Traits/Request/Parameters.php:100-110 | Blank tokens are skipped. Otherwise `desc` iff the token holds `-`, with the column being the trimmed token stripped of `-`. Else `asc`, with the token as column. |
| RequestParameters.ResolveTokensMeaning | src/Traits/Request/Parameters.php:97-122 | Ok iff every parsed column is allowed, and then the pairs in input order. Otherwise the error names an offending column. |
| RequestParameters.ResolveErrorSticks | src/Traits/Request/Parameters.php:115-117 | The first disallowed column stops the loop: later tokens do not change the error. |
| RequestParameters.ResolvedSortsOf | src/Traits/Request/Parameters.php:81-123 | No sort and no allowed columns gives []. Every pair has an allowed column and a direction. An error names a disallowed column. |
| RequestParameters.ResolvedSorts | src/Traits/Request/Parameters.php:81-123 | getResolvedSorts() equals `ResolvedSortsOf`. |
| RequestParameters.ParseSortToken | src/Traits/Request/Parameters.php:101-110 | Trimming, skipping blanks and reading `-` computes `SortToken` of the token. |
| RequestParameters.ResolveLoop | src/Traits/Request/Parameters.php:99-122 | The loop over the tokens returns `ResolveTokens` against the stripped allowed columns: the pairs, or the first disallowed column. |
| Casting.Truncate | src/Traits/Resource/Casting.php:75 | Truncation toward zero of a float. |
| Casting.IntOfDecimal | src/Traits/Resource/Casting.php:75 | `(int)` of the decimal string of a number up to PHP_INT_MAX is that number. |
| Casting.RuleType | src/Traits/Resource/Casting.php:66-67 | The php type of the attribute's rule is one of the five cast names. |
| Casting.CastTo | src/Traits/Resource/Casting.php:66-94 | `int` gives a Carbon value's timestamp and `(int)` of anything else; `bool` gives PHP truthiness; `array` gives `(array)` (the value's entries, `[]` for null, a one-element list for a scalar); `float` and `string` give values of that kind and keep a float or a string as it is, with `(string)` of null, bools and integers spelled out; any other type leaves the value unchanged. |
| Casting.CastToIdempotent | src/Traits/Resource/Casting.php:66-94 | Casting twice to the same type is casting once. |
| Casting.CastAttributeOf | src/Traits/Resource/Casting.php:60-95 | Objects other than Carbon are untouched and nothing else stays an object; every other value is cast to the lower-cased phpType of its rule: a Carbon value under an `int` rule becomes its timestamp, a non-object becomes `(int)`, `(bool)` or `(array)` of itself under those rules, and a string or float under its own type is kept. |
| Casting.CastAttributeIdempotent | src/Traits/Resource/Casting.php:60-95 | castAttribute() is idempotent. |
| Casting.LookupKey | src/Traits/Resource/Casting.php:39-43 | `parent.attribute` when the parent is truthy, else the attribute. |
| Casting.CastArrayOf | src/Traits/Resource/Casting.php:35-50 | Same length, and entry i keeps key i (values: `RuledValueCast`, `UnruledValueKept`, `NestedEntry`, `RuledNestedEntry`). |
| Casting.RuledValueCast | src/Traits/Resource/Casting.php:39-47 | A non-array value with a rule under its lookup key becomes castAttribute of it under that key, and keeps its key. |
| Casting.RuledNestedEntry | src/Traits/Resource/Casting.php:39-47 | An array value with a rule of its own is cast as a nested array first (itself as parent), then castAttribute is applied to the result. |
| Casting.CastArray | src/Traits/Resource/Casting.php:35-50 | The recursive by-reference loop equals `CastArrayOf`. |
| Casting.CastEntry | src/Traits/Resource/Casting.php:38-46 | One turn of the loop: the nested array is cast first, then the lookup key (prefixed by a truthy parent) picks the rule; the entry equals `CastEntryOf`. |
| Casting.CastArrayKeepsKeys | src/Traits/Resource/Casting.php:37-49 | castArray() keeps every key and the key order. |
| Casting.UnruledValueKept | src/Traits/Resource/Casting.php:44-46 | A scalar without a rule is unchanged. |
| Casting.NestedEntry | src/Traits/Resource/Casting.php:38-43 | A nested array is cast first, with its key as the parent. |
| Casting.GrandchildLookup | src/Traits/Resource/Casting.php:39 | Two levels down, the lookup key is only `child.grandchild`: the outer name is lost. |
| Casting.ResourceArray | src/Traits/Resource/Casting.php:19-25 | toArray() keeps the output's keys and their order; a top-level non-array value with a rule becomes castAttribute of it, and one without a rule is kept. |
| Tools.FirstIndexOf | src/Helpers/Tools.php:17-23 | array_search: the first position holding the word, or none. |
| Tools.Unset | src/Helpers/Tools.php:19 | The entry is removed; the others keep their keys and order. |
| Tools.UnsetKeepsOthers | src/Helpers/Tools.php:19 | After unset, the key is gone and every other key keeps its value. |
| Tools.StripString | src/Helpers/Tools.php:31-34 | The stripped string neither starts nor ends with a bar character. |
| Tools.StripRule | src/Helpers/Tools.php:15-37 | Non-string, non-list rules are untouched; a list loses at most one element; a string stays a string. |
| Tools.ListLosesFirstWord | src/Helpers/Tools.php:16-22 | Only the first `required` element is removed. |
| Tools.ListLosesCapOnlyWithoutWord | src/Helpers/Tools.php:23-28 | `Required` is removed (only its first occurrence) only when there is no `required`. |
| Tools.ListWithoutWordKept | src/Helpers/Tools.php:16-29 | A list without either word is unchanged. |
| Tools.StringWithoutWordKept | src/Helpers/Tools.php:31-34 | A string rule that never mentions the word, in any case, is unchanged. |
| Tools.StripJoinedWord | src/Helpers/Tools.php:31-34 | A `\|`-joined rule holding the word as one whole token, in any case, and nowhere else, becomes the join of the other tokens. |
| Tools.StripWordInsideToken | src/Helpers/Tools.php:31-34 | The word is removed as a substring too: `required_if:a` becomes `_if:a`. |
| Tools.StripWordAfterBar | src/Helpers/Tools.php:31-34 | After a bar, the bar and the word go and the rest of the token is glued on: `max:20\|required_with:x` becomes `max:20_with:x`. |
| Tools.RemoveRequiredForRules | src/Helpers/Tools.php:13-38 | Same keys in the same order; each rule stripped of `required`. |
| Tools.RemoveNullableForRules | src/Helpers/Tools.php:46-71 | Same keys in the same order; each rule stripped of `nullable`. |
| RouteNames.ClassSegments | src/Services/SdkRestNameService.php:33-38 | One segment per dot piece of the route name, each the camel-cased, upper-first piece. |
| RouteNames.GenerateApiName | src/Services/SdkRestNameService.php:31-50 | generateApiName() equals `ApiNameOf` of the segments. |
| RouteNames.ApiNameSplit | src/Services/SdkRestNameService.php:41-49 | Read back on `\`: the namespace parts, the controller, then controller + action + `Api`. |
| RouteNames.GeneratedNameParts | src/Services/SdkRestNameService.php:31-50 | The same, for the name of a route with at least two pieces. |
| RouteNames.RouteMethod | src/Services/SdkRestNameService.php:55-69 | Two methods including GET give GET; otherwise the first method upper-cased. |
| RouteNames.RouteMethodIsOneOfThem | src/Services/SdkRestNameService.php:55-69 | The result is upper case and is one of the route's methods. |
| RouteNames.Verb | src/Services/SdkRestNameService.php:74-83 | Mapped iff one of the five verbs; PUT and PATCH both map to `Update`. |
| RouteNames.GetRouteVerb | src/Services/SdkRestNameService.php:55-83 | A GET/HEAD route maps to `Get`. |
| RouteNames.ActionOf | src/Services/SdkRestNameService.php:85-90 | Present iff the action holds `@`; it holds no `@` itself. |
| RouteNames.ActionOfControllerMethod | src/Services/SdkRestNameService.php:85-90 | `Class@method` gives `method`. |
| RouteNames.UriSegments | src/Services/SdkRestNameService.php:124-139 | Every segment is non-empty and holds no `{` and no `/`. |
| RouteNames.UriSegmentsOfPieces | src/Services/SdkRestNameService.php:124-139 | The segments are exactly the kept pieces, in order. |
| RouteNames.UriSegmentsSkipParameter | src/Services/SdkRestNameService.php:124-139 | A `{param}` segment is dropped and the others close up. |
| RouteNames.ResolveUri | src/Services/SdkRestNameService.php:95-119 | 2, 3 or 4 segments fill controller, module and action; any other count leaves all three empty. |
| RouteNames.ResolveUriOfPath | src/Services/SdkRestNameService.php:95-119 | `prefix/module/controller/{id}/action` gives (module, controller, action). |
| RouteNames.NamespaceParts | src/Services/SdkRestNameService.php:161-177 | Non-empty parts without `\`. |
| RouteNames.PlainNamespaceParts | src/Services/SdkRestNameService.php:161-177 | A class without the controller words splits into its non-empty parts. |
| RouteNames.StripConventional | src/Services/SdkRestNameService.php:166 | The three replacements reduce `App\Http\Controllers\M\CController` to `M\C`. |
| RouteNames.ConventionalNamespaceParts | src/Services/SdkRestNameService.php:141-177 | `App\Http\Controllers\M\CController@action` has parts [M, C] and names module M and controller C. |
| RouteNames.ResolveNamespace | src/Services/SdkRestNameService.php:141-159 | One part is the controller; otherwise the last two parts are module and controller. |
| RouteNames.ResolveNamespaceOf | src/Services/UriParserService.php:110-146 | `Module\Name@action` gives (Module, Name). |
| RouteNames.VersionOf | src/Services/UriParserService.php:33-40 | `""` iff there is no `v` followed by a digit; otherwise the leftmost such `v` and its one digit. |
| RouteNames.Version | src/Services/UriParserService.php:33-40 | `""` or `v` and one digit. |
| RouteNames.VersionFirstDigit | src/Services/UriParserService.php:33-40 | Only the first digit counts: `v10` gives `v1`. |
| RouteNames.PrefixedUriSegments | src/Services/UriParserService.php:91-108 | The segments after removing the prefix are all proper segments. |
| RouteNames.PrefixedUriSegmentsDropPrefix | src/Services/UriParserService.php:91-108 | A URI that starts with the prefix and holds it nowhere else keeps the segments after it. |
| RouteNames.PrefixedUriSegmentsNoPrefix | src/Services/UriParserService.php:91-108 | An empty prefix changes nothing. |
| Markdown.Creator.constructor | src/Helpers/MarkdownCreator.php:10 | A new document is empty. |
| Markdown.Creator.Title | src/Helpers/MarkdownCreator.php:12-17 | Appends `#title` and a blank line; earlier text is kept. |
| Markdown.Creator.Table | src/Helpers/MarkdownCreator.php:19-33 | Appends exactly `TableBlock`; earlier text is kept. |
| Markdown.Creator.Div | src/Helpers/MarkdownCreator.php:35-50 | Appends exactly `DivBlock`; earlier text is kept. |
| Markdown.Creator.Line | src/Helpers/MarkdownCreator.php:52-57 | Appends `**title** _small_` and a blank line. |
| Markdown.Creator.P | src/Helpers/MarkdownCreator.php:59-67 | Appends the bold title, a blank line, the content and a blank line. |
| Markdown.Creator.Text | src/Helpers/MarkdownCreator.php:69-74 | Appends the content and a newline. |
| Markdown.Creator.Render | src/Helpers/MarkdownCreator.php:76-79 | Returns the text and changes nothing. |
| Markdown.Separator | src/Helpers/MarkdownCreator.php:23 | `n` cells, each `:----`. |
| Markdown.Bulleted | src/Helpers/MarkdownCreator.php:39-45 | ` - ` before every item only when there is more than one. |
| Markdown.TableLines | src/Helpers/MarkdownCreator.php:19-33 | Read back line by line: the header row, the alignment row, one row per item, then a blank line. |
| Markdown.SeparatorCells | src/Helpers/MarkdownCreator.php:23-25 | The alignment row has exactly one `:----` cell per header column. |
| Markdown.RowCells | src/Helpers/MarkdownCreator.php:21-28 | A row split on the bar character gives its cells. |
| Markdown.DivLines | src/Helpers/MarkdownCreator.php:35-50 | Read back line by line: the bold title, a blank line, one line per item, a blank line. |
| ModelAttributes.FillableEntries | src/Traits/Model/AttributesRules.php:58-68 | The loop equals `PutEach` with `isFillable`. |
| ModelAttributes.FillableExactly | src/Traits/Model/AttributesRules.php:58-68 | Exactly the fillable columns, each with its own rule, in input order. |
| ModelAttributes.AllFillableKept | src/Traits/Model/AttributesRules.php:58-68 | When every column is fillable, nothing changes. |
| ModelAttributes.NoneFillableEmpty | src/Traits/Model/AttributesRules.php:58-68 | When no column is fillable, the result is empty. |
| ModelAttributes.FillableAttributesRules | src/Traits/Model/AttributesRules.php:58-68 | fillableAttributesRules() is that filter over the rules. |
| ModelAttributes.ValidatedData | src/Traits/Model/AttributesRules.php:26-32 | A null or empty argument falls back to the model's attributes. |
| ModelAttributes.BailRule | src/Traits/Model/AttributesRules.php:42-48 | A string rule gets the `bail` prefix iff `$isBail` is true; a list rule is copied. |
| ModelAttributes.ValidationRules | src/Traits/Model/AttributesRules.php:34-49 | The loop equals `PutEach` of the kept rules. |
| ModelAttributes.ValidationRulesExactly | src/Traits/Model/AttributesRules.php:35-48 | A rule reaches the validator iff its attribute is in the data and not guarded, with the `bail` prefix as `BailRule` says. |
| ModelAttributes.NoBailKeepsRules | src/Traits/Model/AttributesRules.php:42-48 | Without `$isBail`, the kept rules are the model's own. |
| ModelAttributes.Validate | src/Traits/Model/AttributesRules.php:24-52 | The validator receives the data, the kept rules and the model's labels. |
| ModelAttributes.DefaultAttributesLabels | src/Traits/Model/AttributesLabels.php:11-14 | The default labels are empty. |
| ModelAttributes.FillableAttributesLabels | src/Traits/Model/AttributesLabels.php:20-30 | Exactly the fillable columns' labels, unchanged and in order. |
| Adapters.AttributesRules | src/Sources/Adapters/ModelAdapter.php:107-114 | The model's rules for a smart model, else []. |
| Adapters.AttributesLabels | src/Sources/Adapters/ModelAdapter.php:95-102 | The model's labels for a smart model, else []. |
| Adapters.Pages | src/Sources/Adapters/ModelAdapter.php:53-59 | `page` defaults to 1, and `per_page` to the model's page size. |
| Adapters.NewSmartSource | src/Sources/Adapters/ModelAdapter.php:119-122 | Always `SmartSourceNotFoundException`. |
| Adapters.ModelAdapter.TableColumns | src/Sources/Adapters/ModelAdapter.php:129-146 | Cached once set. Otherwise [] is cached first; then the schema's columns replace it, a DBALException inside the `try` leaves [], and any other failure propagates as an error with [] cached. |
| Adapters.ModelAdapter.Columns | src/Sources/Adapters/ModelAdapter.php:37-75 | fields/filters/relations/output all answer getTableColumns(), including its propagated failure. |
| Adapters.ModelAdapterColumnsMemoised | src/Sources/Adapters/ModelAdapter.php:131-136 | A second call never fails: it gives the same columns as the first, whatever the schema says by then, or [] when the first call's failure propagated. |
| Adapters.ModelAdapter.FillableAttributesRules | src/Sources/Adapters/ModelAdapter.php:80-90 | The fillable columns of attributesRules(). |
| Adapters.PlainModelNoRules | src/Sources/Adapters/ModelAdapter.php:107-114 | A plain model has no rules, so none is fillable. |
| Adapters.HttpRequestAdapter.constructor | src/Sources/Adapters/HttpRequestAdapter.php:28-31 | Wraps a smart model; nothing cached yet. |
| Adapters.HttpRequestAdapter.TableColumns | src/Sources/Adapters/HttpRequestAdapter.php:133-142 | Always [], and memoised. |
| Adapters.HttpRequestAdapter.Columns | src/Sources/Adapters/HttpRequestAdapter.php:36-75 | fields/filters/relations/output are all []. |
| Adapters.HttpRequestAdapter.FillableAttributesRules | src/Sources/Adapters/HttpRequestAdapter.php:79-94 | Every rule when the model has no isFillable(); otherwise the fillable ones. |
| Adapters.HttpFillableExactly | src/Sources/Adapters/HttpRequestAdapter.php:86-93 | Exactly the fillable columns are kept, in order. |
| Adapters.HttpRequestAdapter.Rules | src/Sources/Adapters/HttpRequestAdapter.php:111-118 | Always the smart model's own rules. |
| Adapters.HttpRequestAdapter.Labels | src/Sources/Adapters/HttpRequestAdapter.php:99-106 | Always the smart model's own labels. |
| ControllerComment.PublicMethods | src/Comment/ControllerComment.php:90 | Exactly the public methods. |
| ControllerComment.FilterActions | src/Comment/ControllerComment.php:100-113 | Exactly the public methods that are actions. |
| ControllerComment.FilterActionsConcat | src/Comment/ControllerComment.php:100-113 | The filter works method by method, so reflection order is kept. |
| ControllerComment.ActionsExactly | src/Comment/ControllerComment.php:90-113 | An action is listed iff it is a method that is public, non-static, not in the parent and not `__`-prefixed. |
| ControllerComment.Comment.Actions | src/Comment/ControllerComment.php:84-117 | A non-empty cache is returned as is. Otherwise the filtered list is stored and returned. Without a parent class: an error. |
| ControllerComment.FirstNamed | src/Comment/ControllerComment.php:68-78 | The first action with exactly that name, or none iff there is no such action. |
| ControllerComment.Comment.ActionByName | src/Comment/ControllerComment.php:68-78 | actionByName() answers `FirstNamed` of actions(). |

## Left out

- Object-to-array conversion (`ApiActiveFilter::toArray`, `JsonResponse`, `Request`). The model takes the decoded body.
- DocService, Comment, ResourceComment and the docblock and reflection parts of ActionComment (`uriParams`, `getResourcesFromReturnTag`, `getClassesFromSeeTag`, `parentClass`, `getValidFormRequestClass`). Their results are parameters: ancestor lists, the return and see tags, the request and resource resolvers.
- Zip, FriendlyToDoc, Validation, the Scenario traits and SmartAttributes: framework glue and I/O.
- `Validator::make`. `ModelAttributes.Validate` stops at the arguments it would receive.
- `UriParserService::format` and its `module`/`controller`/`action` getters. `format` indexes past the end of a one-element array, and the getters read uninitialised fields.
- `RuleParser::ucfirst`, `max()`, `min()` and `in()`. The getters are the parser's fields. `ucfirst` is unused by the modelled code.
- Loose `in_array`/`array_search` comparisons. Key membership is exact equality on the key's string form, which is what PHP 8 does for the non-numeric names involved.
- Casting.CastTo: float and string casts of arbitrary values are abstract functions of the environment.
  - Their kind is stated, with a float or string of the same type kept and `(string)` of null, bools and integers spelled out.
  - Carbon's timestamp is a parameter.
  - `(int)` of a string with an exponent (`"1e3"`) is read as its leading digits.
- Casting.Truncate: states truncation toward zero but not PHP's result for NaN or out-of-range floats.
- Str::camel, `print_r`, `guessType`, `class_exists`, `is_callable`, reflection constants, `isFillable`, `getGuarded` and the Doctrine schema are parameters.
  - Their own behaviour is not modelled.
  - `ModelAdapter::getTableColumns` receives how the schema read ended: the columns, a DBALException, or any other failure.
- The `return $this` chaining of MarkdownCreator. Each builder is a method with no result.
- Concurrency and the request lifecycle. Every operation runs once, on values given to it.
- RouteNames.RouteMethod: a route with no methods gives `""`. The source would read an undefined index there; Laravel routes always have at least one method.
- RouteNames.ActionOf: the action is the piece between the first `@` and the next one. A text without `@` gives nothing (PHP's list assignment yields null with a notice).
- RuleParsing.BoundOf: `(int)` of the bound reads only leading digits. An exponent form such as `min:1e3` and PHP's saturation at PHP_INT_MAX are not modelled.
- RuleParsing.Token: a rule is a text or a closure. Rule objects (`Rule::in`, `Rule::unique`, custom rule instances) cannot be represented.
- ControllerComment.Comment.Actions: when no method passes the filter, the model returns an empty list. PHP leaves the uninitialised field at null and returns null.
- RouteNames.ClassSegments: the route name is taken as a string. A route without a name (null) is not modelled.
- RequestParameters.Filter: a `null` input value is treated like an absent one.
- ResourceResolving.FieldsOf: `RelationNotFoundException` and other exceptions thrown by the resource's own `toArray` are modelled only as "no sample" (the fallback path).
- ActionComments.IsCustomResource, ActionComments.IsPaginator, ActionComments.HasPaginator, ActionComments.IsCollectionAction: a class with no parent gets an empty ancestor list, so these answer false. In the source, `parentClass` never initialises its by-reference list for such a class, and `in_array` on the resulting null raises a TypeError under PHP 8. That error path is not modelled.
- ActionComments.InputData: the list/sort/page merges are stated through lemmas about the merged keys (`PaginatedListHasPages`, `SortedListHasSort`) rather than one closed formula.
- Casting.IntOf: `(int)` of a digit string above PHP_INT_MAX is the unbounded number, where PHP saturates at PHP_INT_MAX. `Casting.IntOfDecimal` is stated only up to PHP_INT_MAX for that reason.
- ActionComments.UnSnake: the separator is inserted as literal text. PHP builds the preg_replace replacement `"$1" . $separator . "$2"`, so a separator holding `$` or `\`, or starting with a digit, would be read as a back-reference there. The only caller passes the default `_`, for which both agree.
- Casting.GrandchildLookup: records what the code does two levels down (the lookup key drops the outer name). Whether this is intended is not clear from the code, so no corrected version is given.

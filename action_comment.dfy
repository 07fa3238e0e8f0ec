/**
 * ActionComment: the documentation of one controller action. Its input descriptors depend on
 * the shape of the endpoint (a GET that returns a collection gets filters, selectors, sort and
 * paging; a plain GET gets the selectors; anything else the plain rule fields); its output
 * descriptors are those of the resource the action returns. Class hierarchy questions are asked
 * of an `ancestors` function standing for PHP reflection.
 */
module ActionComments {
  import opened Php
  import opened Descriptors
  import opened ResourceResolving
  import opened Resolving
  import opened FormRequestResolving

  const AnonymousResourceCollectionClass := "Illuminate\\Http\\Resources\\Json\\AnonymousResourceCollection"
  const AbstractPaginatorClass := "Illuminate\\Pagination\\AbstractPaginator"

  /** `['class' => …, 'input' => $data]` */
  datatype ActionInput = ActionInput(cls: string, input: seq<(Key, FieldObject)>)

  /** `['class' => …, 'output' => …]` */
  datatype ActionOutput = ActionOutput(cls: string, output: Result<seq<(Key, OutputField)>, ResourceMissData>)

  // ---------------------------------------------------------------------------
  // Class checks
  // ---------------------------------------------------------------------------

  /** isSystemResource: one of the two framework collection classes, leading and trailing `\` ignored. */
  predicate IsSystemResource(cls: string)
  {
    Trim(cls, {'\\'}) in [AnonymousResourceCollectionClass, ResourceCollectionClass]
  }

  /** isCustomResource: not a framework collection, and a JsonResource by inheritance. */
  predicate IsCustomResource(cls: string, ancestors: string -> seq<string>)
  {
    !IsSystemResource(cls) && JsonResourceClass in ancestors(cls)
  }

  /** isPaginator: the paginator base class itself or one of its descendants. */
  predicate IsPaginator(cls: string, ancestors: string -> seq<string>)
  {
    cls == AbstractPaginatorClass || AbstractPaginatorClass in ancestors(cls)
  }

  /** hasPaginator: some class of the `@see` tags is a paginator. */
  predicate HasPaginator(seeTag: seq<string>, ancestors: string -> seq<string>)
  {
    exists i :: 0 <= i < |seeTag| && IsPaginator(seeTag[i], ancestors)
  }

  /** isCollectionAction: the last class of the `@return` tag descends from ResourceCollection. */
  predicate IsCollectionAction(returnTag: seq<string>, ancestors: string -> seq<string>)
  {
    returnTag != [] && ResourceCollectionClass in ancestors(returnTag[|returnTag| - 1])
  }

  /** The two framework collections are never custom resources, whatever their ancestry. */
  lemma SystemResourceNotCustom(cls: string, ancestors: string -> seq<string>)
    requires Trim(cls, {'\\'}) == ResourceCollectionClass || Trim(cls, {'\\'}) == AnonymousResourceCollectionClass
    ensures IsSystemResource(cls) && !IsCustomResource(cls, ancestors)
  {
  }

  /** trim() ignores a leading `\`, so `\Foo\Bar` is a system resource exactly when `Foo\Bar` is. */
  lemma SystemResourceLeadingBackslash(cls: string)
    ensures IsSystemResource("\\" + cls) == IsSystemResource(cls)
  {
    assert ("\\" + cls)[1..] == cls;
    assert TrimLeft("\\" + cls, {'\\'}) == TrimLeft(cls, {'\\'});
  }

  /** Outside the two framework collections, a class is custom exactly when it descends from JsonResource. */
  lemma CustomResourceExactly(cls: string, ancestors: string -> seq<string>)
    requires Trim(cls, {'\\'}) != ResourceCollectionClass && Trim(cls, {'\\'}) != AnonymousResourceCollectionClass
    ensures IsCustomResource(cls, ancestors) <==> JsonResourceClass in ancestors(cls)
  {
  }

  /** The paginator base class is a paginator whatever its ancestry; any other class is one iff it descends from it. */
  lemma PaginatorClassOrDescendant(cls: string, ancestors: string -> seq<string>)
    ensures IsPaginator(AbstractPaginatorClass, ancestors)
    ensures cls != AbstractPaginatorClass ==> (IsPaginator(cls, ancestors) <==> AbstractPaginatorClass in ancestors(cls))
  {
  }

  /** hasPaginator's early-returning loop: no tags give false, and on `a + b` it is the test on either part. */
  lemma HasPaginatorConcat(a: seq<string>, b: seq<string>, ancestors: string -> seq<string>)
    ensures !HasPaginator([], ancestors)
    ensures HasPaginator(a + b, ancestors) <==> HasPaginator(a, ancestors) || HasPaginator(b, ancestors)
  {
    if HasPaginator(a + b, ancestors) {
      var i :| 0 <= i < |a + b| && IsPaginator((a + b)[i], ancestors);
      if i < |a| {
        assert (a + b)[i] == a[i];
      } else {
        assert (a + b)[i] == b[i - |a|];
      }
    }
    if HasPaginator(a, ancestors) {
      var i :| 0 <= i < |a| && IsPaginator(a[i], ancestors);
      assert (a + b)[i] == a[i];
    }
    if HasPaginator(b, ancestors) {
      var i :| 0 <= i < |b| && IsPaginator(b[i], ancestors);
      assert (a + b)[|a| + i] == b[i];
    }
  }

  /** isCollectionAction looks only at the class popped off the end of the `@return` tag. */
  lemma CollectionActionUsesLast(tags: seq<string>, c: string, ancestors: string -> seq<string>)
    ensures !IsCollectionAction([], ancestors)
    ensures IsCollectionAction(tags + [c], ancestors) <==> ResourceCollectionClass in ancestors(c)
  {
    assert (tags + [c])[|tags + [c]| - 1] == c;
  }

  // ---------------------------------------------------------------------------
  // unSnake
  // ---------------------------------------------------------------------------

  predicate IsLowerLetter(c: char) { 'a' <= c <= 'z' }
  predicate IsUpperLetter(c: char) { 'A' <= c <= 'Z' }

  /** preg_replace('/([a-z])([A-Z])/', "$1$sep$2", s): the separator between a lower and an upper letter. */
  function SplitCamel(s: string, sep: string): (r: string)
    ensures |r| >= |s|
    decreases |s|
  {
    if |s| < 2 then s
    else [s[0]] + (if IsLowerLetter(s[0]) && IsUpperLetter(s[1]) then sep else "") + SplitCamel(s[1..], sep)
  }

  /** Where SplitCamel puts a separator. */
  function Humps(s: string): (n: nat)
    decreases |s|
  {
    if |s| < 2 then 0
    else (if IsLowerLetter(s[0]) && IsUpperLetter(s[1]) then 1 else 0) + Humps(s[1..])
  }

  /** unSnake($camelCaps, $separator): a separator at every hump, then everything lower-cased. */
  function UnSnake(s: string, sep: string): (r: string)
    ensures |r| == |s| + |sep| * Humps(s)
    ensures forall i :: 0 <= i < |r| ==> !IsUpperLetter(r[i])
  {
    SplitCamelLength(s, sep);
    Lower(SplitCamel(s, sep))
  }

  /** The separator goes in once for each lower-upper pair, and nowhere else. */
  lemma {:induction false} SplitCamelLength(s: string, sep: string)
    ensures |SplitCamel(s, sep)| == |s| + |sep| * Humps(s)
    decreases |s|
  {
    if |s| >= 2 {
      SplitCamelLength(s[1..], sep);
    }
  }

  /** The separator SplitCamel puts where `x` meets `y`: only between a lower and an upper letter. */
  function Seam(x: string, y: string, sep: string): string
  {
    if x != [] && y != [] && IsLowerLetter(x[|x| - 1]) && IsUpperLetter(y[0]) then sep else ""
  }

  /** SplitCamel works pair by pair: on `x + y` it is SplitCamel of each, with the seam between. */
  lemma {:induction false} SplitCamelConcat(x: string, y: string, sep: string)
    ensures SplitCamel(x + y, sep) == SplitCamel(x, sep) + Seam(x, y, sep) + SplitCamel(y, sep)
    decreases |x|
  {
    if x == [] {
      assert x + y == y;
    } else if |x| == 1 {
      if y != [] {
        assert (x + y)[1..] == y;
      } else {
        assert x + y == x;
      }
    } else {
      var t := x[1..];
      var h := if IsLowerLetter(x[0]) && IsUpperLetter(x[1]) then sep else "";
      SplitCamelConcat(t, y, sep);
      assert (x + y)[1..] == t + y;
      assert Seam(t, y, sep) == Seam(x, y, sep) by {
        assert t[|t| - 1] == x[|x| - 1];
      }
      assert SplitCamel(x + y, sep) == [x[0]] + h + SplitCamel(t + y, sep);
      assert SplitCamel(x, sep) == [x[0]] + h + SplitCamel(t, sep);
      SeqAssoc([x[0]] + h, SplitCamel(t, sep), Seam(x, y, sep), SplitCamel(y, sep));
    }
  }

  lemma SeqAssoc(a: string, b: string, c: string, d: string)
    ensures a + (b + c + d) == (a + b) + c + d
  {
  }

  /**
   * unSnake is character-wise apart from the seams: on `x + y` it is unSnake of each, joined by
   * the lower-cased separator exactly when `x` ends in a lower-case and `y` starts with an
   * upper-case letter; one character is just lower-cased.
   */
  lemma UnSnakeConcat(x: string, y: string, sep: string)
    ensures UnSnake(x + y, sep) == UnSnake(x, sep) + Lower(Seam(x, y, sep)) + UnSnake(y, sep)
    ensures |x| == 1 ==> UnSnake(x, sep) == [LowerChar(x[0])]
  {
    SplitCamelConcat(x, y, sep);
    LowerConcat(SplitCamel(x, sep) + Seam(x, y, sep), SplitCamel(y, sep));
    LowerConcat(SplitCamel(x, sep), Seam(x, y, sep));
  }

  /** Text without a lower-upper pair passes through SplitCamel unchanged. */
  lemma {:induction false} SplitCamelNoHumps(s: string, sep: string)
    requires Humps(s) == 0
    ensures SplitCamel(s, sep) == s
    decreases |s|
  {
    if |s| >= 2 {
      SplitCamelNoHumps(s[1..], sep);
      assert [s[0]] + s[1..] == s;
    }
  }

  /** Already snake-case (no capitals) text comes back unchanged. */
  lemma UnSnakeSnake(s: string, sep: string)
    requires forall i :: 0 <= i < |s| ==> !IsUpperLetter(s[i])
    ensures UnSnake(s, sep) == s
  {
    NoUpperNoHumps(s);
    SplitCamelNoHumps(s, sep);
  }

  lemma {:induction false} NoUpperNoHumps(s: string)
    requires forall i :: 0 <= i < |s| ==> !IsUpperLetter(s[i])
    ensures Humps(s) == 0
    decreases |s|
  {
    if |s| >= 2 {
      NoUpperNoHumps(s[1..]);
    }
  }

  // ---------------------------------------------------------------------------
  // input(), output()
  // ---------------------------------------------------------------------------

  /**
   * What viewFields($resolver) returns: the selector descriptors, with the resource's attributes
   * and relations when a resource resolver is bound and its fields() succeeded (`fields` being
   * that call's result and the relation map after it).
   */
  function ViewOf(ctx: Context, fields: Option<(Result<seq<(Key, OutputField)>, ResourceMissData>, seq<(Key, RelationField)>)>)
    : (r: Result<seq<(Key, FieldObject)>, ResourceMissData>)
    requires DistinctKeys(ctx.query)
    ensures fields.None? ==> r == Ok(ViewData(ctx.query, [], []))
    ensures fields.Some? && fields.value.0.Err? ==> r == Err(fields.value.0.error)
    ensures fields.Some? && fields.value.0.Ok? ==> r == Ok(ViewData(ctx.query, KeysOf(fields.value.0.value), fields.value.1))
  {
    match fields
    case None => Ok(ViewData(ctx.query, [], []))
    case Some((res, rf)) => if res.Err? then Err(res.error) else Ok(ViewData(ctx.query, KeysOf(res.value), rf))
  }

  /** The filter descriptors, convertToFilter(). */
  function FiltersOf(ctx: Context): seq<(Key, FieldObject)>
    requires DistinctKeys(ctx.query)
  {
    Rename(FilterKeyOf(FilterName(ctx)), PutEach(Plain(), RuleFieldOf(ctx), ctx.request.rules))
  }

  /** The input descriptors of a bound form request, chosen by the endpoint's shape. */
  function InputData(ctx: Context, isGet: bool, isCollection: bool, hasSort: bool, hasPaginator: bool,
                     view: Result<seq<(Key, FieldObject)>, ResourceMissData>)
    : (r: Result<seq<(Key, FieldObject)>, ResourceMissData>)
    requires DistinctKeys(ctx.query)
    ensures !isGet ==> r == Ok(PutEach(Plain(), RuleFieldOf(ctx), ctx.request.rules))
    ensures isGet && !isCollection ==> r == view
    ensures isGet && view.Err? ==> r == Err(view.error)
  {
    if isGet && isCollection then
      if view.Err? then Err(view.error)
      else
        var listed := ArrayMerge(FiltersOf(ctx), view.value);
        var sorted := if hasSort then ArrayMerge(listed, SortFields(ctx)) else listed;
        Ok(if hasPaginator then ArrayMerge(sorted, PageFields()) else sorted)
    else if isGet then view
    else Ok(PutEach(Plain(), RuleFieldOf(ctx), ctx.request.rules))
  }

  /** A one-entry array merged last wins under its string key. */
  lemma MergedLast<V>(a: seq<(Key, V)>, e: (Key, V))
    requires e.0.StrKey?
    ensures Get(ArrayMerge(a, [e]), e.0) == Some(e.1)
  {
    assert KeysOf([e]) == [e.0];
    MergeIntoTakesLast(MergeInto([], a), [e], e.0);
  }

  /** The paging descriptors merged last are found under `page` and `per_page`; other string keys are untouched. */
  lemma PagesMergedLast(sorted: seq<(Key, FieldObject)>, k: Key)
    requires k.StrKey?
    ensures Get(ArrayMerge(sorted, PageFields()), StrKey("page")) == Some(PageFields()[0].1)
    ensures Get(ArrayMerge(sorted, PageFields()), StrKey("per_page")) == Some(PageFields()[1].1)
    ensures k != StrKey("page") && k != StrKey("per_page") ==>
      Get(ArrayMerge(sorted, PageFields()), k) == Get(MergeInto([], sorted), k)
  {
    var pages := PageFields();
    assert pages == [pages[0], pages[1]];
    PairMergedLast(MergeInto([], sorted), pages[0], pages[1], k);
  }

  /** Merging a `page` entry then a `per_page` entry: both win, every other string key is untouched. */
  lemma PairMergedLast<V>(acc: seq<(Key, V)>, x: (Key, V), y: (Key, V), k: Key)
    requires x.0 == StrKey("page") && y.0 == StrKey("per_page") && k.StrKey?
    ensures Get(MergeInto(acc, [x, y]), StrKey("page")) == Some(x.1)
    ensures Get(MergeInto(acc, [x, y]), StrKey("per_page")) == Some(y.1)
    ensures k != StrKey("page") && k != StrKey("per_page") ==> Get(MergeInto(acc, [x, y]), k) == Get(acc, k)
  {
    var mid := MergeStep(acc, x);
    MergePair(acc, x, y);
    PageKeysDiffer();
    MergeStepGet(acc, x, StrKey("page"));
    MergeStepGet(mid, y, StrKey("page"));
    MergeStepGet(acc, x, StrKey("per_page"));
    MergeStepGet(mid, y, StrKey("per_page"));
    MergeStepGet(acc, x, k);
    MergeStepGet(mid, y, k);
  }

  /** Merging a two-entry array is two merge steps. */
  lemma MergePair<V>(acc: seq<(Key, V)>, x: (Key, V), y: (Key, V))
    ensures MergeInto(acc, [x, y]) == MergeStep(MergeStep(acc, x), y)
  {
    var mid := MergeStep(acc, x);
    assert [x, y][1..] == [y] && [y][1..] == [];
    assert MergeInto(acc, [x, y]) == MergeInto(mid, [y]);
    assert MergeInto(mid, [y]) == MergeInto(MergeStep(mid, y), []);
  }

  lemma PageKeysDiffer()
    ensures StrKey("page") != StrKey("per_page")
  {
    assert "page"[1] == 'a' && "per_page"[1] == 'e';
  }

  /**
   * A paginated collection endpoint always documents `page` (default 1) and `per_page`
   * (default 15), whatever else was merged before them.
   */
  lemma PaginatedListHasPages(ctx: Context, hasSort: bool, view: Result<seq<(Key, FieldObject)>, ResourceMissData>)
    requires DistinctKeys(ctx.query) && view.Ok?
    ensures var r := InputData(ctx, true, true, hasSort, true, view);
      && r.Ok?
      && Get(r.value, StrKey("page")) == Some(PageFields()[0].1)
      && Get(r.value, StrKey("per_page")) == Some(PageFields()[1].1)
  {
    var listed := ArrayMerge(FiltersOf(ctx), view.value);
    var sorted := if hasSort then ArrayMerge(listed, SortFields(ctx)) else listed;
    assert InputData(ctx, true, true, hasSort, true, view) == Ok(ArrayMerge(sorted, PageFields()));
    PagesMergedLast(sorted, StrKey("page"));
  }

  /**
   * A collection endpoint with sorts documents the sort descriptor under the configured sort
   * name, unless that name is one of the paging parameters that come after it.
   */
  lemma SortedListHasSort(ctx: Context, hasPaginator: bool, view: Result<seq<(Key, FieldObject)>, ResourceMissData>)
    requires DistinctKeys(ctx.query) && view.Ok?
    requires KeyOf(Setting(ctx.query, "sortName")).StrKey?
    requires hasPaginator ==> Setting(ctx.query, "sortName") != "page" && Setting(ctx.query, "sortName") != "per_page"
    ensures var r := InputData(ctx, true, true, true, hasPaginator, view);
      && r.Ok?
      && Get(r.value, KeyOf(Setting(ctx.query, "sortName"))) == Some(SortFields(ctx)[0].1)
  {
    var k := KeyOf(Setting(ctx.query, "sortName"));
    var listed := ArrayMerge(FiltersOf(ctx), view.value);
    var sorts := SortFields(ctx);
    assert sorts == [sorts[0]] && sorts[0].0 == k;
    MergedLast(listed, sorts[0]);
    var sorted := ArrayMerge(listed, sorts);
    if hasPaginator {
      assert InputData(ctx, true, true, true, hasPaginator, view) == Ok(ArrayMerge(sorted, PageFields()));
      assert k != StrKey("page") && k != StrKey("per_page") by {
        assert k.s == Setting(ctx.query, "sortName");
      }
      PagesMergedLast(sorted, k);
      ArrayMergeDistinct(listed, sorts);
      MergeIntoTakesLast([], sorted, k);
    } else {
      assert InputData(ctx, true, true, true, hasPaginator, view) == Ok(sorted);
    }
  }

  /** The documentation of one action. */
  class ActionComment {
    const request: Option<Context>          // the bound FormRequestResolver, if any
    const requestClass: string              // get_class($requestResolver->request)
    const resourceResolver: ResourceResolver?
    const methods: seq<string>              // $route->methods
    const returnTag: seq<string>            // the classes of the `@return` tag
    const seeTag: seq<string>               // the classes of the `@see` tags
    const ancestors: string -> seq<string>  // parentClass(): every ancestor of a class

    constructor (request: Option<Context>, requestClass: string, resourceResolver: ResourceResolver?,
                 methods: seq<string>, returnTag: seq<string>, seeTag: seq<string>, ancestors: string -> seq<string>)
      ensures this.request == request && this.requestClass == requestClass
      ensures this.resourceResolver == resourceResolver && this.methods == methods
      ensures this.returnTag == returnTag && this.seeTag == seeTag && this.ancestors == ancestors
    {
      this.request := request;
      this.requestClass := requestClass;
      this.resourceResolver := resourceResolver;
      this.methods := methods;
      this.returnTag := returnTag;
      this.seeTag := seeTag;
      this.ancestors := ancestors;
    }

    /** hasSort(): the form request declares a non-empty sorts() array. */
    predicate HasSort(): (b: bool)
      requires request.Some?
      ensures DistinctKeys(request.value.query) ==> (b <==> SortFields(request.value)[0].1.options != Arr([]))
    {
      request.value.request.sorts != []
    }

    /**
     * input(): nothing without a form request; otherwise its descriptors for this endpoint's
     * shape. A GET runs the resource resolver's fields() (which also grows its relation map).
     */
    method Input() returns (r: Result<Option<ActionInput>, ResourceMissData>)
      requires request.Some? ==> DistinctKeys(request.value.query)
      modifies resourceResolver
      ensures request.None? ==> r == Ok(None) && (resourceResolver != null ==> unchanged(resourceResolver))
      ensures request.Some? && "GET" !in methods ==>
        (&& r == Ok(Some(ActionInput(requestClass, PutEach(Plain(), RuleFieldOf(request.value), request.value.request.rules))))
         && (resourceResolver != null ==> unchanged(resourceResolver)))
      ensures request.Some? && "GET" in methods ==>
        var fields := if resourceResolver == null then None
          else Some(FieldsOf(resourceResolver.resource, resourceResolver.env, resourceResolver.actionName,
                             old(resourceResolver.relationsFields)));
        var data := InputData(request.value, true, IsCollectionAction(returnTag, ancestors), HasSort(),
                              HasPaginator(seeTag, ancestors), ViewOf(request.value, fields));
        && (resourceResolver != null ==> resourceResolver.relationsFields == fields.value.1)
        && (data.Err? ==> r == Err(data.error))
        && (data.Ok? ==> r == Ok(Some(ActionInput(requestClass, data.value))))
    {
      if request.None? {
        return Ok(None);
      }
      var ctx := request.value;
      var data: seq<(Key, FieldObject)>;
      if "GET" in methods && IsCollectionAction(returnTag, ancestors) {
        var listed := ListFields(ctx, resourceResolver);
        if listed.Err? {
          return Err(listed.error);
        }
        data := listed.value;
        if HasSort() {
          data := ArrayMerge(data, SortFields(ctx));
        }
        if HasPaginator(seeTag, ancestors) {
          data := ArrayMerge(data, PageFields());
        }
      } else if "GET" in methods {
        var view := ViewFields(ctx, resourceResolver);
        if view.Err? {
          return Err(view.error);
        }
        data := view.value;
      } else {
        data := Fields(ctx);
      }
      return Ok(Some(ActionInput(requestClass, data)));
    }

    /** output(): nothing without a resource; otherwise the resource's fields(). */
    method Output() returns (r: Option<ActionOutput>)
      modifies resourceResolver
      ensures resourceResolver == null ==> r == None
      ensures resourceResolver != null ==>
        var (res, rf) := FieldsOf(resourceResolver.resource, resourceResolver.env, resourceResolver.actionName,
                                  old(resourceResolver.relationsFields));
        && r == Some(ActionOutput(resourceResolver.resource.cls, res))
        && resourceResolver.relationsFields == rf
    {
      if resourceResolver == null {
        return None;
      }
      var fields := resourceResolver.Fields();
      return Some(ActionOutput(resourceResolver.resource.cls, fields));
    }
  }
}

/**
 * Names derived from a route: the SDK class name of an endpoint (SdkRestNameService) and the
 * version, URI segments and controller namespace of a route (UriParserService). Both services
 * only read the route they were built with, so the route is a value here.
 */
module RouteNames {
  import opened Php
  import Tools

  /** What the services read from a route: getName(), methods(), getActionName(), uri(), getPrefix(). */
  datatype Route = Route(name: string, methods: seq<string>, action: string, uri: string, prefix: string)

  // ---------------------------------------------------------------------------
  // generateApiName
  // ---------------------------------------------------------------------------

  /** `ucfirst(Str::camel($val))` of each dot-separated piece of the route name; Str::camel is a parameter. */
  function ClassSegments(name: string, camel: string -> string): (segs: seq<string>)
    ensures |segs| == |Split(name, '.')| >= 1
    ensures forall i :: 0 <= i < |segs| ==> segs[i] == UcFirst(camel(Split(name, '.')[i]))
  {
    var parts := Split(name, '.');
    seq(|parts|, i requires 0 <= i < |parts| => UcFirst(camel(parts[i])))
  }

  /**
   * The class name built from the segments: the last one is the action, the one before it the
   * controller (empty when there is none), and the rest the namespace.
   */
  function ApiNameOf(segs: seq<string>): string
    requires |segs| >= 1
  {
    var n := |segs|;
    var controller := if n >= 2 then segs[n - 2] else "";
    var namespace := if n >= 2 then segs[..n - 2] else [];
    Join(namespace, "\\") + "\\" + controller + "\\" + controller + segs[n - 1] + "Api"
  }

  /**
   * generateApiName(): `$tmp[]` collects the segments, then two array_pop calls take the action
   * and the controller off the end (array_pop of an empty list gives null, which prints as "").
   */
  method GenerateApiName(route: Route, camel: string -> string) returns (r: string)
    ensures r == ApiNameOf(ClassSegments(route.name, camel))
  {
    var parts := Split(route.name, '.');
    var tmp: seq<string> := [];
    for i := 0 to |parts|
      invariant tmp == ClassSegments(route.name, camel)[..i]
    {
      tmp := tmp + [UcFirst(camel(parts[i]))];
    }
    ghost var segs := tmp;
    assert segs == ClassSegments(route.name, camel);
    var className := tmp[|tmp| - 1] + "Api";
    tmp := tmp[..|tmp| - 1];
    var controllerName := "";
    if |tmp| > 0 {
      controllerName := tmp[|tmp| - 1];
      tmp := tmp[..|tmp| - 1];
    }
    r := Join(tmp, "\\") + "\\" + controllerName + "\\" + controllerName + className;
    PoppedApiName(segs, tmp, controllerName);
  }

  /** What the two array_pop calls leave, put back together, is the class name of the segments. */
  lemma PoppedApiName(segs: seq<string>, rest: seq<string>, controller: string)
    requires |segs| >= 1
    requires |segs| >= 2 ==> controller == segs[|segs| - 2] && rest == segs[..|segs| - 2]
    requires |segs| == 1 ==> controller == "" && rest == []
    ensures Join(rest, "\\") + "\\" + controller + "\\" + controller + (segs[|segs| - 1] + "Api") == ApiNameOf(segs)
  {
    var head := Join(rest, "\\") + "\\" + controller + "\\" + controller;
    assert head + (segs[|segs| - 1] + "Api") == head + segs[|segs| - 1] + "Api";
  }

  /**
   * Read back on `\`, the class name is the namespace segments, the controller, and the
   * controller followed by the action and `Api`; a two-piece route name leaves an empty
   * namespace in front, so the name then starts with `\`.
   */
  lemma ApiNameSplit(segs: seq<string>)
    requires |segs| >= 2
    requires forall i :: 0 <= i < |segs| ==> '\\' !in segs[i]
    ensures var n := |segs|;
      Split(ApiNameOf(segs), '\\') ==
        (if n == 2 then [""] else segs[..n - 2]) + [segs[n - 2], segs[n - 2] + segs[n - 1] + "Api"]
  {
    var n := |segs|;
    var c := segs[n - 2];
    var x := c + segs[n - 1] + "Api";
    var tail := [c, x];
    assert Join(tail, "\\") == c + "\\" + x;
    var ns := if n == 2 then [""] else segs[..n - 2];
    if n > 2 {
      JoinAppend(ns, tail, "\\");
    }
    assert ApiNameOf(segs) == Join(ns + tail, "\\");
    assert forall i :: 0 <= i < |ns + tail| ==> '\\' !in (ns + tail)[i] by {
      forall i | 0 <= i < |ns + tail| ensures '\\' !in (ns + tail)[i] {
        if i < |ns| && n > 2 {
          assert (ns + tail)[i] == segs[i];
        }
      }
    }
    SplitJoin(ns + tail, '\\');
  }

  /** The class name of a dotted route name whose pieces hold no `\`. */
  lemma GeneratedNameParts(route: Route, camel: string -> string)
    requires |Split(route.name, '.')| >= 2
    requires forall i :: 0 <= i < |Split(route.name, '.')| ==> '\\' !in UcFirst(camel(Split(route.name, '.')[i]))
    ensures var segs := ClassSegments(route.name, camel);
      var n := |segs|;
      Split(ApiNameOf(segs), '\\') ==
        (if n == 2 then [""] else segs[..n - 2]) + [segs[n - 2], segs[n - 2] + segs[n - 1] + "Api"]
  {
    ApiNameSplit(ClassSegments(route.name, camel));
  }

  // ---------------------------------------------------------------------------
  // method, methodMap, getActionName
  // ---------------------------------------------------------------------------

  /**
   * method(): the only method, or `GET` when there are exactly two and one of them is `GET`,
   * else the first; upper-cased. An empty list reads `$methods[0]` as null, which gives "".
   */
  function RouteMethod(route: Route): (r: string)
    ensures |route.methods| == 2 && "GET" in route.methods ==> r == "GET"
    ensures |route.methods| >= 1 && !(|route.methods| == 2 && "GET" in route.methods) ==>
      r == Upper(route.methods[0])
    ensures |route.methods| == 0 ==> r == ""
  {
    var methods := route.methods;
    if |methods| == 1 then Upper(methods[0])
    else if |methods| == 2 && "GET" in methods then "GET"
    else if |methods| == 0 then ""
    else Upper(methods[0])
  }

  /** strtoupper() changes nothing in an upper-cased string. */
  lemma UpperTwice(s: string)
    ensures Upper(Upper(s)) == Upper(s)
  {
    assert forall i :: 0 <= i < |s| ==> UpperChar(UpperChar(s[i])) == UpperChar(s[i]);
  }

  /** The method is upper case and is one of the route's methods, up to case. */
  lemma RouteMethodIsOneOfThem(route: Route)
    requires |route.methods| >= 1
    ensures Upper(RouteMethod(route)) == RouteMethod(route)
    ensures exists i :: 0 <= i < |route.methods| && Upper(route.methods[i]) == RouteMethod(route)
  {
    var r := RouteMethod(route);
    if |route.methods| == 2 && "GET" in route.methods {
      var i :| 0 <= i < 2 && route.methods[i] == "GET";
      assert Upper("GET") == "GET";
    } else {
      UpperTwice(route.methods[0]);
    }
  }

  /** methodMap(): the verb of each HTTP method. */
  const MethodMap: map<string, string> :=
    map["GET" := "Get", "POST" := "Create", "PUT" := "Update", "PATCH" := "Update", "DELETE" := "Delete"]

  /** The verb of a method, when the map has one. */
  function Verb(httpMethod: string): (r: Option<string>)
    ensures r.Some? <==> httpMethod in {"GET", "POST", "PUT", "PATCH", "DELETE"}
    ensures httpMethod == "PUT" || httpMethod == "PATCH" ==> r == Some("Update")
  {
    if httpMethod in MethodMap then Some(MethodMap[httpMethod]) else None
  }

  /** A GET route, whose methods are GET and HEAD in either order, is named with the verb `Get`. */
  lemma GetRouteVerb(route: Route)
    requires route.methods == ["GET", "HEAD"] || route.methods == ["HEAD", "GET"]
    ensures RouteMethod(route) == "GET" && Verb(RouteMethod(route)) == Some("Get")
  {
    assert "GET" in route.methods;
  }

  /**
   * getActionName(): `list(, $action) = explode('@', ...)`, the piece between the first `@`
   * and the next one (or the end); without an `@` the list assignment yields null.
   */
  function ActionOf(route: Route): (r: Option<string>)
    ensures r.Some? <==> '@' in route.action
    ensures r.Some? ==> '@' !in r.value
  {
    var parts := Split(route.action, '@');
    if '@' in route.action then
      SplitHasSep(route.action, '@');
      Some(parts[1])
    else
      SplitNoSep(route.action, '@');
      None
  }

  /** The action of `Class@method` is `method`. */
  lemma ActionOfControllerMethod(cls: string, actionName: string, route: Route)
    requires '@' !in cls && '@' !in actionName
    requires route.action == cls + "@" + actionName
    ensures ActionOf(route) == Some(actionName)
  {
    SplitConcat(cls, actionName, '@');
    SplitNoSep(actionName, '@');
    assert route.action[|cls|] == '@';
  }

  // ---------------------------------------------------------------------------
  // uriToArray, resolverUri
  // ---------------------------------------------------------------------------

  /** A URI piece array_filter keeps: not empty and without `{` (a route parameter). */
  predicate Kept(piece: string)
  {
    piece != "" && '{' !in piece
  }

  /** A segment of a URI as uriToArray returns it. */
  predicate UriSegment(s: string)
  {
    Kept(s) && '/' !in s
  }

  /** array_values(array_filter($pieces, ...)): the kept pieces, in order. */
  function KeptPieces(pieces: seq<string>): (r: seq<string>)
    ensures forall i :: 0 <= i < |r| ==> Kept(r[i]) && r[i] in pieces
    ensures |r| <= |pieces|
    decreases |pieces|
  {
    if pieces == [] then []
    else if Kept(pieces[0]) then [pieces[0]] + KeptPieces(pieces[1..])
    else KeptPieces(pieces[1..])
  }

  /** The filter works piece by piece: it keeps the order of what it keeps. */
  lemma {:induction false} KeptPiecesConcat(a: seq<string>, b: seq<string>)
    ensures KeptPieces(a + b) == KeptPieces(a) + KeptPieces(b)
    decreases |a|
  {
    if a != [] {
      assert (a + b)[1..] == a[1..] + b;
      KeptPiecesConcat(a[1..], b);
    } else {
      assert a + b == b;
    }
  }

  /** A list of kept pieces passes the filter unchanged. */
  lemma {:induction false} KeptPiecesAll(pieces: seq<string>)
    requires forall i :: 0 <= i < |pieces| ==> Kept(pieces[i])
    ensures KeptPieces(pieces) == pieces
    decreases |pieces|
  {
    if pieces != [] {
      KeptPiecesAll(pieces[1..]);
    }
  }

  /** SdkRestNameService::uriToArray(): the URI split on `/`, without empty pieces and parameters. */
  function UriSegments(uri: string): (r: seq<string>)
    ensures forall i :: 0 <= i < |r| ==> UriSegment(r[i])
  {
    KeptPieces(Split(uri, '/'))
  }

  /** A URI written as its segments joined by `/` splits back into those segments. */
  lemma UriSegmentsOfPath(segs: seq<string>)
    requires segs != []
    requires forall i :: 0 <= i < |segs| ==> UriSegment(segs[i])
    ensures UriSegments(Join(segs, "/")) == segs
  {
    SplitJoin(segs, '/');
    KeptPiecesAll(segs);
  }

  /** A route parameter between two parts of a URI is dropped. */
  lemma UriSegmentsSkipParameter(a: seq<string>, param: string, b: seq<string>)
    requires a != [] && b != [] && '{' in param && '/' !in param
    requires forall i :: 0 <= i < |a| ==> UriSegment(a[i])
    requires forall i :: 0 <= i < |b| ==> UriSegment(b[i])
    ensures UriSegments(Join(a + [param] + b, "/")) == a + b
  {
    NoSlashAround(a, param, b);
    UriSegmentsOfPieces(a + [param] + b);
    KeptPiecesSkip(a, param, b);
  }

  /** Pieces without `/`, joined by `/`, are what uriToArray filters. */
  lemma UriSegmentsOfPieces(pieces: seq<string>)
    requires pieces != [] && forall i :: 0 <= i < |pieces| ==> '/' !in pieces[i]
    ensures UriSegments(Join(pieces, "/")) == KeptPieces(pieces)
  {
    SplitJoin(pieces, '/');
  }

  lemma NoSlashAround(a: seq<string>, param: string, b: seq<string>)
    requires '/' !in param
    requires forall i :: 0 <= i < |a| ==> UriSegment(a[i])
    requires forall i :: 0 <= i < |b| ==> UriSegment(b[i])
    ensures forall i :: 0 <= i < |a + [param] + b| ==> '/' !in (a + [param] + b)[i]
  {
    var all := a + [param] + b;
    forall i | 0 <= i < |all| ensures '/' !in all[i] {
      if i < |a| {
        assert all[i] == a[i];
      } else if i > |a| {
        assert all[i] == b[i - |a| - 1];
      }
    }
  }

  /** The filter drops a parameter piece between kept pieces. */
  lemma KeptPiecesSkip(a: seq<string>, param: string, b: seq<string>)
    requires '{' in param
    requires forall i :: 0 <= i < |a| ==> Kept(a[i])
    requires forall i :: 0 <= i < |b| ==> Kept(b[i])
    ensures KeptPieces(a + [param] + b) == a + b
  {
    var ap := a + [param];
    KeptPiecesConcat(ap, b);
    KeptPiecesConcat(a, [param]);
    KeptPiecesDrop(param);
    KeptPiecesAll(a);
    KeptPiecesAll(b);
    assert KeptPieces(ap) == a;
  }

  lemma KeptPiecesDrop(param: string)
    requires '{' in param
    ensures KeptPieces([param]) == []
  {
    assert !Kept(param);
    assert [param][1..] == [];
  }

  /** The module, controller and action named by a URI; "" where it names none. */
  datatype UriParts = UriParts(moduleName: string, controller: string, action: string)

  /**
   * resolverUri(): the first segment (the API prefix) is skipped; two segments name a
   * controller, three a module and a controller, four also an action; any other count nothing.
   */
  function ResolveUri(route: Route): (r: UriParts)
    ensures var segs := UriSegments(route.uri);
      && (|segs| < 2 || |segs| > 4 ==> r == UriParts("", "", ""))
      && (|segs| == 2 ==> r == UriParts("", segs[1], ""))
      && (|segs| == 3 ==> r == UriParts(segs[1], segs[2], ""))
      && (|segs| == 4 ==> r == UriParts(segs[1], segs[2], segs[3]))
  {
    var segs := UriSegments(route.uri);
    if |segs| == 2 then UriParts("", segs[1], "")
    else if |segs| == 3 then UriParts(segs[1], segs[2], "")
    else if |segs| == 4 then UriParts(segs[1], segs[2], segs[3])
    else UriParts("", "", "")
  }

  /** `prefix/module/controller/{id}/action` names that module, controller and action. */
  lemma ResolveUriOfPath(route: Route, prefix: string, moduleName: string, controller: string, param: string, action: string)
    requires UriSegment(prefix) && UriSegment(moduleName) && UriSegment(controller) && UriSegment(action)
    requires '{' in param && '/' !in param
    requires route.uri == Join([prefix, moduleName, controller, param, action], "/")
    ensures ResolveUri(route) == UriParts(moduleName, controller, action)
  {
    var front := [prefix, moduleName, controller];
    assert [prefix, moduleName, controller, param, action] == front + [param] + [action];
    UriSegmentsSkipParameter(front, param, [action]);
    assert front + [action] == [prefix, moduleName, controller, action];
  }

  // ---------------------------------------------------------------------------
  // getNamespaceArr, resolverNamespace (the same in both services)
  // ---------------------------------------------------------------------------

  /** str_replace(['App\Http\\', 'Controllers\\', 'Controller'], '', $ns): each pattern in turn. */
  function StripControllerWords(ns: string): string
  {
    ReplaceAll(ReplaceAll(ReplaceAll(ns, "App\\Http\\", ""), "Controllers\\", ""), "Controller", "")
  }

  /** array_values(array_filter($parts)): the non-empty parts, in order. */
  function NonEmptyParts(parts: seq<string>): (r: seq<string>)
    ensures forall i :: 0 <= i < |r| ==> r[i] != "" && r[i] in parts
    decreases |parts|
  {
    if parts == [] then []
    else if parts[0] != "" then [parts[0]] + NonEmptyParts(parts[1..])
    else NonEmptyParts(parts[1..])
  }

  lemma {:induction false} NonEmptyPartsAll(parts: seq<string>)
    requires forall i :: 0 <= i < |parts| ==> parts[i] != ""
    ensures NonEmptyParts(parts) == parts
    decreases |parts|
  {
    if parts != [] {
      NonEmptyPartsAll(parts[1..]);
    }
  }

  /**
   * getNamespaceArr(): the class before `@`, stripped of the controller words, split on `\`,
   * without empty parts.
   */
  function NamespaceParts(route: Route): (r: seq<string>)
    ensures forall i :: 0 <= i < |r| ==> r[i] != "" && '\\' !in r[i]
  {
    var ns := Split(route.action, '@')[0];
    var parts := Split(StripControllerWords(ns), '\\');
    NonEmptyParts(parts)
  }

  /** Does `pat` occur in `s`? */
  predicate Occurs(s: string, pat: string)
  {
    exists i :: 0 <= i <= |s| && pat <= s[i..]
  }

  /** str_replace changes nothing in a string where the pattern does not occur. */
  lemma {:induction false} ReplaceAllAbsent(s: string, pat: string, rep: string)
    requires !Occurs(s, pat)
    ensures ReplaceAll(s, pat, rep) == s
    decreases |s|
  {
    if pat != [] && s != [] {
      assert s[0..] == s;
      assert !Occurs(s[1..], pat) by {
        forall i | 0 <= i <= |s[1..]| ensures !(pat <= s[1..][i..]) {
          assert s[1..][i..] == s[i + 1..];
        }
      }
      ReplaceAllAbsent(s[1..], pat, rep);
    }
  }

  /** A class name holding none of the controller words is only split on `\`. */
  lemma PlainNamespaceParts(route: Route, ns: string, actionName: string)
    requires '@' !in ns && route.action == ns + "@" + actionName
    requires !Occurs(ns, "App\\Http\\") && !Occurs(ns, "Controllers\\") && !Occurs(ns, "Controller")
    ensures NamespaceParts(route) == NonEmptyParts(Split(ns, '\\'))
  {
    SplitConcat(ns, actionName, '@');
    assert route.action == ns + ['@'] + actionName;
    ReplaceAllAbsent(ns, "App\\Http\\", "");
    ReplaceAllAbsent(ns, "Controllers\\", "");
    ReplaceAllAbsent(ns, "Controller", "");
  }

  /** The module and controller a namespace names; "" where it names none. */
  datatype NamespaceNames = NamespaceNames(moduleName: string, controller: string)

  /**
   * resolverNamespace(): one part is the controller; with two or more, the last two are the
   * module and the controller.
   */
  function ResolveNamespace(route: Route): (r: NamespaceNames)
    ensures var parts := NamespaceParts(route);
      && (parts == [] ==> r == NamespaceNames("", ""))
      && (|parts| == 1 ==> r == NamespaceNames("", parts[0]))
      && (|parts| >= 2 ==> r == NamespaceNames(parts[|parts| - 2], parts[|parts| - 1]))
  {
    var parts := NamespaceParts(route);
    var len := |parts|;
    if len == 1 then NamespaceNames("", parts[0])
    else if len >= 2 then NamespaceNames(parts[len - 2], parts[len - 1])
    else NamespaceNames("", "")
  }

  /** `Module\Name@method`, free of the controller words, names module `Module` and controller `Name`. */
  lemma ResolveNamespaceOf(route: Route, moduleName: string, name: string, actionName: string)
    requires moduleName != "" && name != "" && '\\' !in moduleName && '\\' !in name
    requires '@' !in moduleName && '@' !in name
    requires var ns := moduleName + "\\" + name;
      !Occurs(ns, "App\\Http\\") && !Occurs(ns, "Controllers\\") && !Occurs(ns, "Controller")
    requires route.action == moduleName + "\\" + name + "@" + actionName
    ensures ResolveNamespace(route) == NamespaceNames(moduleName, name)
  {
    var ns := moduleName + "\\" + name;
    JoinPair(moduleName, name, "\\");
    CharNotInPair(moduleName, name, '@');
    PlainNamespaceParts(route, ns, actionName);
    SplitJoin([moduleName, name], '\\');
    NonEmptyPartsAll([moduleName, name]);
  }

  /** A character other than `\` that is in neither part is not in `a\b`. */
  lemma CharNotInPair(a: string, b: string, ch: char)
    requires ch != '\\' && ch !in a && ch !in b
    ensures ch !in a + "\\" + b
  {
    var s := a + "\\" + b;
    forall i | 0 <= i < |s| ensures s[i] != ch {
      if i < |a| {
        assert s[i] == a[i];
      } else if i > |a| {
        assert s[i] == b[i - |a| - 1];
      }
    }
  }

  /** str_replace copies a head in which the pattern starts nowhere. */
  lemma {:induction false} ReplaceAllAfterPlainHead(a: string, b: string, pat: string, rep: string)
    requires pat != []
    requires forall i :: 0 <= i < |a| ==> !(pat <= (a + b)[i..])
    ensures ReplaceAll(a + b, pat, rep) == a + ReplaceAll(b, pat, rep)
    decreases |a|
  {
    if a != [] {
      var s := a + b;
      assert s[0..] == s;
      forall i | 0 <= i < |a[1..]| ensures !(pat <= (a[1..] + b)[i..]) {
        assert s[i + 1..] == (a[1..] + b)[i..];
      }
      ReplaceAllAfterPlainHead(a[1..], b, pat, rep);
      assert s[1..] == a[1..] + b;
      assert s[0] == a[0];
      calc {
        ReplaceAll(s, pat, rep);
        [a[0]] + ReplaceAll(a[1..] + b, pat, rep);
        [a[0]] + (a[1..] + ReplaceAll(b, pat, rep));
        { assert [a[0]] + a[1..] == a; }
        a + ReplaceAll(b, pat, rep);
      }
    } else {
      assert a + b == b;
    }
  }

  /** str_replace replaces a match at the head and goes on after it. */
  lemma ReplaceAllHead(pat: string, b: string, rep: string)
    requires pat != []
    ensures ReplaceAll(pat + b, pat, rep) == rep + ReplaceAll(b, pat, rep)
  {
    assert pat <= pat + b;
    assert (pat + b)[|pat|..] == b;
  }

  /** In `a\b` with no `\` in a or b, the only backslash is the one between them. */
  lemma OneBackslash(a: string, b: string, k: nat)
    requires '\\' !in a && '\\' !in b && k < |a + "\\" + b|
    ensures (a + "\\" + b)[k] == '\\' ==> k == |a|
  {
    if k < |a| {
      assert (a + "\\" + b)[k] == a[k];
    } else if k > |a| {
      assert (a + "\\" + b)[k] == b[k - |a| - 1];
    }
  }

  /** In `a\b\c` with no `\` in a, b or c, the only backslashes are the two separators. */
  lemma TwoBackslashes(a: string, b: string, c: string, k: nat)
    requires '\\' !in a && '\\' !in b && '\\' !in c && k < |a + "\\" + b + "\\" + c|
    ensures (a + "\\" + b + "\\" + c)[k] == '\\' ==> k == |a| || k == |a| + 1 + |b|
  {
    var s := a + "\\" + b + "\\" + c;
    if k < |a| {
      assert s[k] == a[k];
    } else if |a| < k < |a| + 1 + |b| {
      assert s[k] == b[k - |a| - 1];
    } else if k > |a| + 1 + |b| {
      assert s[k] == c[k - |a| - |b| - 2];
    }
  }

  /** `cController` holds no `\` when c holds none. */
  lemma NoBackslashTail(c: string)
    requires '\\' !in c
    ensures '\\' !in c + "Controller"
  {
    var tail := c + "Controller";
    forall k | 0 <= k < |tail| ensures tail[k] != '\\' {
      if k < |c| { assert tail[k] == c[k]; } else { assert tail[k] == "Controller"[k - |c|]; }
    }
  }

  /** `App\Http\` is not in `Controllers\m\cController` when m and c hold no `\`. */
  lemma NoAppHttp(m: string, c: string)
    requires '\\' !in m && '\\' !in c
    ensures !Occurs("Controllers\\" + m + "\\" + c + "Controller", "App\\Http\\")
  {
    var pat := "App\\Http\\";
    var tail := c + "Controller";
    var s := "Controllers" + "\\" + m + "\\" + tail;
    assert s == "Controllers\\" + m + "\\" + c + "Controller";
    NoBackslashTail(c);
    forall i | 0 <= i <= |s| ensures !(pat <= s[i..]) {
      if i + |pat| <= |s| {
        TwoBackslashes("Controllers", m, tail, i + 3);
        TwoBackslashes("Controllers", m, tail, i + 8);
        if i == 8 {
          assert s[i] == 'e' != pat[0];
        } else if i + 3 == 11 + 1 + |m| {
          assert s[i + 8] != pat[8];
        } else {
          assert s[i + 3] != pat[3];
        }
      }
    }
  }

  /** `Controllers\` is not in `m\cController` when m holds no `Controller` and neither holds a `\`. */
  lemma NoControllersSlash(m: string, c: string)
    requires '\\' !in m && '\\' !in c && !Occurs(m, "Controller")
    ensures !Occurs(m + "\\" + c + "Controller", "Controllers\\")
  {
    var pat := "Controllers\\";
    var tail := c + "Controller";
    var s := m + "\\" + tail;
    assert s == m + "\\" + c + "Controller";
    NoBackslashTail(c);
    forall i | 0 <= i <= |s| ensures !(pat <= s[i..]) {
      if i + |pat| <= |s| {
        OneBackslash(m, tail, i + 11);
        if i + 11 == |m| {
          assert !("Controller" <= m[i..]);
          assert m[i..][..10] == s[i..][..10];
          assert s[i..][..10] != pat[..10];
        } else {
          assert s[i + 11] != pat[11];
        }
      }
    }
  }

  /** `Controller` occurs in `m\cController` only at the end, when m and c do not hold it. */
  lemma ControllerOnlyAtEnd(m: string, c: string, i: nat)
    requires '\\' !in m && !Occurs(m, "Controller") && !Occurs(c, "Controller")
    requires i < |m + "\\" + c|
    ensures !("Controller" <= (m + "\\" + c + "Controller")[i..])
  {
    var pat := "Controller";
    var s := m + "\\" + c + "Controller";
    if i + 10 <= |m| {
      assert s[i..][..10] == m[i..][..10];
      assert !(pat <= m[i..]);
    } else if i < |m| {
      assert s[|m|] == '\\';
      assert '\\' !in pat;
      assert s[i..][|m| - i] == s[|m|];
    } else if i == |m| {
      assert s[i] == '\\';
    } else if i + 10 <= |m| + 1 + |c| {
      var j := i - |m| - 1;
      assert s[i..][..10] == c[j..][..10];
      assert !(pat <= c[j..]);
    } else {
      var j := |m| + 1 + |c| - i;
      assert s[|m| + 1 + |c|] == 'C';
      assert s[i..][j] == s[|m| + 1 + |c|];
      assert 1 <= j <= 9 && pat[j] != 'C';
    }
  }

  /** The three replacements strip `App\Http\Controllers\m\cController` down to `m\c`. */
  lemma StripConventional(m: string, c: string)
    requires '\\' !in m && '\\' !in c && !Occurs(m, "Controller") && !Occurs(c, "Controller")
    ensures StripControllerWords("App\\Http\\Controllers\\" + m + "\\" + c + "Controller") == m + "\\" + c
  {
    StripAppHttp(m, c);
    StripControllersSlash(m, c);
    StripControllerSuffix(m, c);
  }

  /** The first pass removes only the leading `App\Http\`. */
  lemma StripAppHttp(m: string, c: string)
    requires '\\' !in m && '\\' !in c
    ensures ReplaceAll("App\\Http\\Controllers\\" + m + "\\" + c + "Controller", "App\\Http\\", "")
      == "Controllers\\" + m + "\\" + c + "Controller"
  {
    var s2 := "Controllers\\" + m + "\\" + c + "Controller";
    assert "App\\Http\\Controllers\\" + m + "\\" + c + "Controller" == "App\\Http\\" + s2;
    ReplaceAllHead("App\\Http\\", s2, "");
    NoAppHttp(m, c);
    ReplaceAllAbsent(s2, "App\\Http\\", "");
  }

  /** The second pass removes only the leading `Controllers\`. */
  lemma StripControllersSlash(m: string, c: string)
    requires '\\' !in m && '\\' !in c && !Occurs(m, "Controller") && !Occurs(c, "Controller")
    ensures ReplaceAll("Controllers\\" + m + "\\" + c + "Controller", "Controllers\\", "")
      == m + "\\" + c + "Controller"
  {
    var s3 := m + "\\" + c + "Controller";
    assert "Controllers\\" + m + "\\" + c + "Controller" == "Controllers\\" + s3;
    ReplaceAllHead("Controllers\\", s3, "");
    NoControllersSlash(m, c);
    ReplaceAllAbsent(s3, "Controllers\\", "");
  }

  /** The third pass removes only the trailing `Controller`. */
  lemma StripControllerSuffix(m: string, c: string)
    requires '\\' !in m && '\\' !in c && !Occurs(m, "Controller") && !Occurs(c, "Controller")
    ensures ReplaceAll(m + "\\" + c + "Controller", "Controller", "") == m + "\\" + c
  {
    var core := m + "\\" + c;
    forall i | 0 <= i < |core| ensures !("Controller" <= (core + "Controller")[i..]) {
      ControllerOnlyAtEnd(m, c, i);
    }
    ReplaceAllAfterPlainHead(core, "Controller", "Controller", "");
    ReplaceAllHead("Controller", "", "");
    assert core + "" == core;
  }

  /**
   * A controller in the conventional place, `App\Http\Controllers\M\CController@action`, loses
   * `App\Http\`, `Controllers\` and the `Controller` suffix: its parts are the module M and the
   * controller C.
   */
  lemma ConventionalNamespaceParts(route: Route, m: string, c: string, actionName: string)
    requires m != "" && c != "" && '\\' !in m && '\\' !in c && '@' !in m && '@' !in c
    requires !Occurs(m, "Controller") && !Occurs(c, "Controller")
    requires route.action == "App\\Http\\Controllers\\" + m + "\\" + c + "Controller@" + actionName
    ensures NamespaceParts(route) == [m, c]
    ensures ResolveNamespace(route) == NamespaceNames(m, c)
  {
    var ns := "App\\Http\\Controllers\\" + m + "\\" + c + "Controller";
    assert route.action == ns + ['@'] + actionName;
    NoAtInConventional(m, c);
    SplitConcat(ns, actionName, '@');
    StripConventional(m, c);
    JoinPair(m, c, "\\");
    SplitJoin([m, c], '\\');
    NonEmptyPartsAll([m, c]);
  }

  /** The conventional controller path holds no `@` when the module and controller hold none. */
  lemma NoAtInConventional(m: string, c: string)
    requires '@' !in m && '@' !in c
    ensures '@' !in "App\\Http\\Controllers\\" + m + "\\" + c + "Controller"
  {
    var ns := "App\\Http\\Controllers\\" + m + "\\" + c + "Controller";
    forall k | 0 <= k < |ns| ensures ns[k] != '@' {
      if 21 <= k < 21 + |m| {
        assert ns[k] == m[k - 21];
      } else if 22 + |m| <= k < 22 + |m| + |c| {
        assert ns[k] == c[k - 22 - |m|];
      }
    }
  }

  // ---------------------------------------------------------------------------
  // UriParserService: version, uriToArray
  // ---------------------------------------------------------------------------

  /** Is there a `v` followed by a digit at position `i`? */
  predicate VersionAt(s: string, i: int)
  {
    0 <= i < |s| - 1 && s[i] == 'v' && IsDigit(s[i + 1])
  }

  /** version(): preg_match('/(v\d{1})/'): the leftmost `v` followed by a digit, with that digit. */
  function VersionOf(prefix: string): (r: string)
    ensures r == "" <==> forall i :: 0 <= i < |prefix| ==> !VersionAt(prefix, i)
    ensures r != "" ==> exists i ::
      && VersionAt(prefix, i) && r == prefix[i..i + 2]
      && forall j :: 0 <= j < i ==> !VersionAt(prefix, j)
    decreases |prefix|
  {
    if |prefix| < 2 then ""
    else if prefix[0] == 'v' && IsDigit(prefix[1]) then
      assert VersionAt(prefix, 0) && prefix[..2] == prefix[0..2];
      prefix[..2]
    else
      var r := VersionOf(prefix[1..]);
      assert !VersionAt(prefix, 0);
      assert forall i :: 1 <= i < |prefix| ==> (VersionAt(prefix, i) <==> VersionAt(prefix[1..], i - 1));
      if r != "" then
        var i :| VersionAt(prefix[1..], i) && r == prefix[1..][i..i + 2]
          && forall j :: 0 <= j < i ==> !VersionAt(prefix[1..], j);
        assert prefix[1..][i..i + 2] == prefix[i + 1..i + 3];
        assert VersionAt(prefix, i + 1);
        assert forall j :: 0 <= j < i + 1 ==> !VersionAt(prefix, j);
        r
      else r
  }

  /** The version of the route's prefix: `v` and one digit, or "". */
  function Version(route: Route): (r: string)
    ensures r == "" || (|r| == 2 && r[0] == 'v' && IsDigit(r[1]))
  {
    VersionOf(route.prefix)
  }

  /** Only the first digit counts: `api/v10` has version `v1`. */
  lemma VersionFirstDigit(s: string, d: char, rest: string)
    requires IsDigit(d) && 'v' !in s
    ensures VersionOf(s + ['v', d] + rest) == ['v', d]
  {
    var t := s + ['v', d] + rest;
    assert VersionAt(t, |s|);
    assert forall j :: 0 <= j < |s| ==> t[j] == s[j];
  }

  /** UriParserService::uriToArray(): the prefix removed wherever it occurs, ignoring case, then as above. */
  function PrefixedUriSegments(route: Route): (r: seq<string>)
    ensures forall i :: 0 <= i < |r| ==> UriSegment(r[i])
  {
    KeptPieces(Split(ReplaceAllCI(route.uri, route.prefix, ""), '/'))
  }

  /** A URI that starts with the prefix, and holds it nowhere else, keeps the segments after it. */
  lemma PrefixedUriSegmentsDropPrefix(route: Route, rest: string)
    requires route.prefix != "" && route.uri == route.prefix + rest
    requires !Tools.OccursCI(rest, route.prefix)
    ensures PrefixedUriSegments(route) == UriSegments(rest)
  {
    var p := route.prefix;
    assert route.uri[..|p|] == p;
    assert route.uri[|p|..] == rest;
    Tools.ReplaceAbsent(rest, p, "");
    assert StartsWithCI(route.uri, p);
    assert ReplaceAllCI(route.uri, p, "") == "" + ReplaceAllCI(rest, p, "") == rest;
  }

  /** With no prefix the two services split a URI alike. */
  lemma PrefixedUriSegmentsNoPrefix(route: Route)
    requires route.prefix == ""
    ensures PrefixedUriSegments(route) == UriSegments(route.uri)
  {
    assert ReplaceAllCI(route.uri, route.prefix, "") == route.uri;
  }
}

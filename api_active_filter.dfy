/**
 * ApiActiveFilter: the response middleware that keeps only the fields a client asked for in
 * `?fields=a,b.c,…`. The selector is split into dot-paths; each level of the response keeps the
 * keys whose name is a root of the paths still in play, and descends into arrays with the paths
 * under that key. The response body is taken after its conversion to nested arrays.
 */
module ActiveFilter {
  import opened Php

  // ---------------------------------------------------------------------------
  // The selector
  // ---------------------------------------------------------------------------

  /** removeEmpty: the entries that are not blank after trim, untrimmed and in order. */
  function RemoveEmpty(xs: seq<string>): (r: seq<string>)
    ensures forall x :: x in r <==> x in xs && Trim(x, Blank) != ""
    ensures |r| <= |xs|
    ensures |xs| == 1 ==> r == if Trim(xs[0], Blank) != "" then xs else []
    decreases |xs|
  {
    if xs == [] then []
    else
      var init := RemoveEmpty(xs[..|xs| - 1]);
      var x := xs[|xs| - 1];
      assert xs == xs[..|xs| - 1] + [x];
      if Trim(x, Blank) != "" then init + [x] else init
  }

  /**
   * removeEmpty works entry by entry: the kept entries of `a + b` are those of `a` followed by
   * those of `b`, so order and repetitions are kept.
   */
  lemma {:induction false} RemoveEmptyConcat(a: seq<string>, b: seq<string>)
    ensures RemoveEmpty(a + b) == RemoveEmpty(a) + RemoveEmpty(b)
    decreases |b|
  {
    if b == [] {
      assert a + b == a;
    } else {
      var init := b[..|b| - 1];
      var y := b[|b| - 1];
      assert (a + b)[..|a + b| - 1] == a + init;
      assert (a + b)[|a + b| - 1] == y;
      RemoveEmptyConcat(a, init);
    }
  }

  /** fieldArray: `['*']` for an empty selector, else its comma-separated, non-blank paths. */
  function FieldArray(selector: string): (tpl: seq<string>)
    ensures !StrTruthy(selector) ==> tpl == ["*"]
    ensures StrTruthy(selector) ==> tpl == RemoveEmpty(Split(selector, ','))
    ensures StrTruthy(selector) ==> forall p :: p in tpl ==> ',' !in p && Trim(p, Blank) != ""
  {
    if !StrTruthy(selector) then ["*"] else RemoveEmpty(Split(selector, ','))
  }

  /** array_unique on a list: the first occurrence of each value, in order. */
  function Unique(xs: seq<string>): (r: seq<string>)
    ensures forall x :: x in r <==> x in xs
    ensures forall i, j :: 0 <= i < j < |r| ==> r[i] != r[j]
    decreases |xs|
  {
    if xs == [] then []
    else
      var init := Unique(xs[..|xs| - 1]);
      var x := xs[|xs| - 1];
      assert xs == xs[..|xs| - 1] + [x];
      if x in init then init else init + [x]
  }

  /** The text before the first `.` of each path. */
  function Roots(fields: seq<string>): (r: seq<string>)
    ensures |r| == |fields| && forall i :: 0 <= i < |fields| ==> r[i] == BeforeFirst(fields[i], '.')
  {
    seq(|fields|, i requires 0 <= i < |fields| => BeforeFirst(fields[i], '.'))
  }

  /**
   * extractRootFields: the distinct roots of the paths, or nothing at all when one of them is
   * `*` (every field is wanted).
   */
  function ExtractRootFields(fields: seq<string>): (r: seq<string>)
    ensures "*" in Roots(fields) ==> r == []
    ensures "*" !in Roots(fields) ==> forall x :: x in r <==> x in Roots(fields)
    ensures forall i, j :: 0 <= i < j < |r| ==> r[i] != r[j]
    ensures forall x :: x in r ==> '.' !in x && x != "*"
  {
    var roots := Roots(fields);
    if "*" in roots then [] else Unique(roots)
  }

  predicate HasPrefix(s: string, p: string)
  {
    |p| <= |s| && s[..|p|] == p
  }

  /** The suffixes of the paths that start with `root.`, in order, with duplicates. */
  function SuffixesFor(fields: seq<string>, root: string): (r: seq<string>)
    ensures forall x :: x in r <==> exists f :: f in fields && HasPrefix(f, root + ".") && x == f[|root| + 1..]
    decreases |fields|
  {
    if fields == [] then []
    else
      var init := SuffixesFor(fields[..|fields| - 1], root);
      var f := fields[|fields| - 1];
      assert fields == fields[..|fields| - 1] + [f];
      if HasPrefix(f, root + ".") then init + [f[|root| + 1..]] else init
  }

  /** extractFieldsFor: the distinct paths below `root`, with `root.` stripped. */
  function ExtractFieldsFor(fields: seq<string>, root: string): (r: seq<string>)
    ensures forall x :: x in r <==> exists f :: f in fields && HasPrefix(f, root + ".") && x == f[|root| + 1..]
    ensures forall i, j :: 0 <= i < j < |r| ==> r[i] != r[j]
  {
    Unique(SuffixesFor(fields, root))
  }

  /** `extractRootFields($tpl) ?: ['*']` */
  function TopRoots(tpl: seq<string>): (r: seq<string>)
    ensures r != []
    ensures ExtractRootFields(tpl) == [] ==> r == ["*"]
    ensures ExtractRootFields(tpl) != [] ==> r == ExtractRootFields(tpl)
  {
    var roots := ExtractRootFields(tpl);
    if roots == [] then ["*"] else roots
  }

  /** A selector with nothing in it (or `*`) keeps every top-level field. */
  lemma EmptySelectorKeepsAll(selector: string)
    requires !StrTruthy(selector)
    ensures TopRoots(FieldArray(selector)) == ["*"]
  {
    assert Roots(["*"])[0] == BeforeFirst("*", '.') == "*";
  }

  // ---------------------------------------------------------------------------
  // filterItem
  // ---------------------------------------------------------------------------

  /** `in_array($column, $rootFields)`, read as string equality of the key (see README). */
  predicate Selected(column: Key, roots: seq<string>)
  {
    KeyStr(column) in roots
  }

  /** The loop state of filterItem: the output so far and the current rootFields and prefix. */
  datatype Walk = Walk(tmp: seq<(Key, Value)>, roots: seq<string>, prefix: string)

  /** `$prefix ? $prefix . '.' . $column : $column` */
  function Extend(prefix: string, column: Key): string
  {
    if StrTruthy(prefix) then prefix + "." + KeyStr(column) else KeyStr(column)
  }

  /**
   * filterItem($item, $rootFields, $prefix): the item itself when rootFields is `[]` or `['*']`;
   * else the loop over its entries; a value that is not an array has no entries.
   */
  function FilterItemOf(tpl: seq<string>, item: Value, roots: seq<string>, prefix: string): (r: Value)
    ensures roots == [] || roots == ["*"] ==> r == item
    ensures !(roots == [] || roots == ["*"]) ==> r.Arr?
    decreases item, 1, 0
  {
    if roots == [] || roots == ["*"] then item
    else if item.Arr? then Arr(WalkOf(tpl, item, |item.entries|, roots, prefix).tmp)
    else Arr([])
  }

  /** The state of filterItem's loop over `item` after its first `n` entries. */
  function WalkOf(tpl: seq<string>, item: Value, n: nat, roots: seq<string>, prefix: string): Walk
    requires item.Arr? && n <= |item.entries|
    decreases item, 0, n
  {
    if n == 0 then Walk([], roots, prefix)
    else
      var st := WalkOf(tpl, item, n - 1, roots, prefix);
      var (column, value) := item.entries[n - 1];
      if !Selected(column, st.roots) then st
      else if column.IntKey? then
        var r := ExtractRootFields(ExtractFieldsFor(tpl, st.prefix));
        Walk(Put(st.tmp, column, FilterItemOf(tpl, value, r, st.prefix)), r, st.prefix)
      else if value.Arr? then
        var p := Extend(st.prefix, column);
        var r := ExtractRootFields(ExtractFieldsFor(tpl, p));
        Walk(Put(st.tmp, column, FilterItemOf(tpl, value, r, p)), r, p)
      else Walk(Put(st.tmp, column, value), st.roots, st.prefix)
  }

  /** filterItem() */
  method FilterItem(tpl: seq<string>, item: Value, roots: seq<string>, prefix: string) returns (r: Value)
    ensures r == FilterItemOf(tpl, item, roots, prefix)
    decreases item, 1
  {
    if roots == [] || roots == ["*"] {
      return item;
    }
    if !item.Arr? {
      return Arr([]);
    }
    var st := Walk([], roots, prefix);
    for i := 0 to |item.entries|
      invariant WalkOf(tpl, item, i, roots, prefix) == st
    {
      st := FilterEntry(tpl, item, i, roots, prefix, st);
    }
    return Arr(st.tmp);
  }

  /**
   * One turn of filterItem's loop: an unselected column is skipped; an integer column re-reads
   * rootFields at the current prefix; an array under a string column extends the prefix first;
   * any other value is copied.
   */
  method FilterEntry(tpl: seq<string>, item: Value, i: nat, roots: seq<string>, prefix: string, st: Walk) returns (next: Walk)
    requires item.Arr? && i < |item.entries|
    requires st == WalkOf(tpl, item, i, roots, prefix)
    ensures next == WalkOf(tpl, item, i + 1, roots, prefix)
    decreases item, 0
  {
    var (column, value) := item.entries[i];
    var tmp, rootFields, pre := st.tmp, st.roots, st.prefix;
    if !Selected(column, rootFields) {
      return st;
    }
    if column.IntKey? {
      rootFields := ExtractFieldsFor(tpl, pre);
      rootFields := ExtractRootFields(rootFields);
      var v := FilterItem(tpl, value, rootFields, pre);
      return Walk(Put(tmp, column, v), rootFields, pre);
    }
    if value.Arr? {
      pre := Extend(pre, column);
      rootFields := ExtractFieldsFor(tpl, pre);
      rootFields := ExtractRootFields(rootFields);
      var v := FilterItem(tpl, value, rootFields, pre);
      return Walk(Put(tmp, column, v), rootFields, pre);
    }
    return Walk(Put(tmp, column, value), rootFields, pre);
  }

  /** Is `xs` a subsequence of `ys` (the same elements, in the same order, some left out)? */
  predicate IsSubsequence<T(==)>(xs: seq<T>, ys: seq<T>)
    decreases |ys|
  {
    if xs == [] then true
    else if ys == [] then false
    else if xs[|xs| - 1] == ys[|ys| - 1] then IsSubsequence(xs[..|xs| - 1], ys[..|ys| - 1])
    else IsSubsequence(xs, ys[..|ys| - 1])
  }

  /** Entry `i` of filterItem's loop is selected by the rootFields the loop holds when it reaches it. */
  predicate PickedAt(tpl: seq<string>, item: Value, i: nat, roots: seq<string>, prefix: string)
    requires item.Arr? && i < |item.entries|
  {
    Selected(item.entries[i].0, WalkOf(tpl, item, i, roots, prefix).roots)
  }

  /** A skipped entry leaves the keys as they were; a written one adds its key and no other. */
  lemma PickStep(st: seq<(Key, Value)>, out: seq<(Key, Value)>, column: Key, written: bool, v: Value)
    requires !written ==> out == st
    requires written ==> out == Put(st, column, v)
    ensures forall k :: HasKey(out, k) ==> HasKey(st, k) || (written && k == column)
    ensures forall k :: HasKey(st, k) ==> HasKey(out, k)
    ensures written ==> HasKey(out, column)
  {
    PutKeys(st, column, v);
  }

  /** One step of such a loop: write `k` with `v` when the entry is picked, else keep the state. */
  function StepAfter(picked: bool, st: seq<(Key, Value)>, k: Key, v: Value): (r: seq<(Key, Value)>)
    ensures picked ==> r == Put(st, k, v) && forall k' :: HasKey(r, k') <==> HasKey(st, k') || k' == k
    ensures !picked ==> r == st
  {
    if picked then PutKeys(st, k, v); Put(st, k, v) else st
  }

  /**
   * The steps of a loop over `es` that, at step j, writes entry j-1's key with `vals(j)` when
   * `picked(j - 1)` holds and leaves the state alone otherwise; `tmps(j)` is the state after j steps.
   */
  predicate StepsFollow(es: seq<(Key, Value)>, n: nat, picked: int -> bool, tmps: int -> seq<(Key, Value)>,
    vals: int -> Value)
  {
    && n <= |es|
    && forall j {:trigger vals(j)} :: 0 < j <= n ==>
      tmps(j) == StepAfter(picked(j - 1), tmps(j - 1), es[j - 1].0, vals(j))
  }

  /** The first m steps of such a loop follow the same rule. */
  lemma StepsFollowPrefix(es: seq<(Key, Value)>, n: nat, m: nat, picked: int -> bool,
      tmps: int -> seq<(Key, Value)>, vals: int -> Value)
    requires StepsFollow(es, n, picked, tmps, vals) && m <= n
    ensures StepsFollow(es, m, picked, tmps, vals)
  {
    forall j {:trigger vals(j)} | 0 < j <= m
      ensures tmps(j) == StepAfter(picked(j - 1), tmps(j - 1), es[j - 1].0, vals(j))
    {
      assert 0 < j <= n;
    }
  }

  /** Such a loop, started empty, holds only keys of picked entries. */
  lemma {:induction false} KeysPickedGen(es: seq<(Key, Value)>, n: nat, picked: int -> bool,
      tmps: int -> seq<(Key, Value)>, vals: int -> Value)
    requires StepsFollow(es, n, picked, tmps, vals) && tmps(0) == []
    ensures forall k :: HasKey(tmps(n), k) ==>
      exists i {:trigger es[i]} :: 0 <= i < n && es[i].0 == k && picked(i)
    decreases n
  {
    if n > 0 {
      StepsFollowPrefix(es, n, n - 1, picked, tmps, vals);
      KeysPickedGen(es, n - 1, picked, tmps, vals);
      PickStep(tmps(n - 1), tmps(n), es[n - 1].0, picked(n - 1), vals(n));
      forall k | HasKey(tmps(n), k)
        ensures exists i {:trigger es[i]} :: 0 <= i < n && es[i].0 == k && picked(i)
      {
        if !HasKey(tmps(n - 1), k) {
          assert es[n - 1].0 == k && picked(n - 1);
        }
      }
    }
  }

  /** Such a loop keeps the key of every picked entry. */
  lemma {:induction false} PickedKeptGen(es: seq<(Key, Value)>, n: nat, picked: int -> bool,
      tmps: int -> seq<(Key, Value)>, vals: int -> Value)
    requires StepsFollow(es, n, picked, tmps, vals)
    ensures forall i {:trigger es[i]} :: 0 <= i < n && picked(i) ==> HasKey(tmps(n), es[i].0)
    decreases n
  {
    if n > 0 {
      StepsFollowPrefix(es, n, n - 1, picked, tmps, vals);
      PickedKeptGen(es, n - 1, picked, tmps, vals);
      PickStep(tmps(n - 1), tmps(n), es[n - 1].0, picked(n - 1), vals(n));
    }
  }

  /** The value step n of filterItem's loop writes when it writes one. */
  function StepValue(tpl: seq<string>, item: Value, n: nat, roots: seq<string>, prefix: string): Value
    requires item.Arr? && 0 < n <= |item.entries|
  {
    var st := WalkOf(tpl, item, n - 1, roots, prefix);
    var (column, value) := item.entries[n - 1];
    if column.IntKey? then FilterItemOf(tpl, value, ExtractRootFields(ExtractFieldsFor(tpl, st.prefix)), st.prefix)
    else if value.Arr? then
      var p := Extend(st.prefix, column);
      FilterItemOf(tpl, value, ExtractRootFields(ExtractFieldsFor(tpl, p)), p)
    else value
  }

  /** Step n of filterItem's loop writes entry n-1 iff it is picked. */
  lemma StepOf(tpl: seq<string>, item: Value, n: nat, roots: seq<string>, prefix: string)
    requires item.Arr? && 0 < n <= |item.entries|
    ensures var picked, tmps, vals := Picks(tpl, item, roots, prefix), Tmps(tpl, item, roots, prefix),
        Vals(tpl, item, roots, prefix);
      tmps(n) == StepAfter(picked(n - 1), tmps(n - 1), item.entries[n - 1].0, vals(n))
  {
  }

  /** Which entries filterItem's loop picks, as a function of the index. */
  function Picks(tpl: seq<string>, item: Value, roots: seq<string>, prefix: string): int -> bool
  {
    i => item.Arr? && 0 <= i < |item.entries| && PickedAt(tpl, item, i, roots, prefix)
  }

  /** The array filterItem's loop has built after j entries. */
  function Tmps(tpl: seq<string>, item: Value, roots: seq<string>, prefix: string): int -> seq<(Key, Value)>
  {
    j => if item.Arr? && 0 <= j <= |item.entries| then WalkOf(tpl, item, j, roots, prefix).tmp else []
  }

  /** The value filterItem's loop writes at step j. */
  function Vals(tpl: seq<string>, item: Value, roots: seq<string>, prefix: string): int -> Value
  {
    j => if item.Arr? && 0 < j <= |item.entries| then StepValue(tpl, item, j, roots, prefix) else Null
  }

  /** filterItem's loop over the first `n` entries is such a loop. */
  lemma WalkFollows(tpl: seq<string>, item: Value, n: nat, roots: seq<string>, prefix: string)
    requires item.Arr? && n <= |item.entries|
    ensures StepsFollow(item.entries, n, Picks(tpl, item, roots, prefix), Tmps(tpl, item, roots, prefix),
      Vals(tpl, item, roots, prefix))
  {
    var es := item.entries;
    var picked, tmps, vals := Picks(tpl, item, roots, prefix), Tmps(tpl, item, roots, prefix), Vals(tpl, item, roots, prefix);
    forall j {:trigger vals(j)} | 0 < j <= n
      ensures tmps(j) == StepAfter(picked(j - 1), tmps(j - 1), es[j - 1].0, vals(j))
    {
      StepOf(tpl, item, j, roots, prefix);
    }
  }

  /** Every key in the output of filterItem's loop after `n` entries comes from a picked entry. */
  lemma WalkKeysPicked(tpl: seq<string>, item: Value, n: nat, roots: seq<string>, prefix: string)
    requires item.Arr? && n <= |item.entries|
    ensures forall k :: HasKey(WalkOf(tpl, item, n, roots, prefix).tmp, k) ==>
      exists i {:trigger PickedAt(tpl, item, i, roots, prefix)} :: 0 <= i < n && item.entries[i].0 == k && PickedAt(tpl, item, i, roots, prefix)
  {
    WalkFollows(tpl, item, n, roots, prefix);
    var picked, tmps := Picks(tpl, item, roots, prefix), Tmps(tpl, item, roots, prefix);
    assert tmps(0) == [];
    KeysPickedGen(item.entries, n, picked, tmps, Vals(tpl, item, roots, prefix));
    forall k | HasKey(WalkOf(tpl, item, n, roots, prefix).tmp, k)
      ensures exists i {:trigger PickedAt(tpl, item, i, roots, prefix)} :: 0 <= i < n && item.entries[i].0 == k && PickedAt(tpl, item, i, roots, prefix)
    {
      assert HasKey(tmps(n), k);
      var i :| 0 <= i < n && item.entries[i].0 == k && picked(i);
      assert PickedAt(tpl, item, i, roots, prefix);
    }
  }

  /** Every picked entry among the first `n` has its key in the output of filterItem's loop. */
  lemma WalkPickedKept(tpl: seq<string>, item: Value, n: nat, roots: seq<string>, prefix: string)
    requires item.Arr? && n <= |item.entries|
    ensures forall i {:trigger PickedAt(tpl, item, i, roots, prefix)} :: 0 <= i < n && PickedAt(tpl, item, i, roots, prefix) ==>
      HasKey(WalkOf(tpl, item, n, roots, prefix).tmp, item.entries[i].0)
  {
    WalkFollows(tpl, item, n, roots, prefix);
    var picked, tmps := Picks(tpl, item, roots, prefix), Tmps(tpl, item, roots, prefix);
    PickedKeptGen(item.entries, n, picked, tmps, Vals(tpl, item, roots, prefix));
    forall i {:trigger PickedAt(tpl, item, i, roots, prefix)} | 0 <= i < n && PickedAt(tpl, item, i, roots, prefix)
      ensures HasKey(WalkOf(tpl, item, n, roots, prefix).tmp, item.entries[i].0)
    {
      assert picked(i);
      assert HasKey(tmps(n), item.entries[i].0);
    }
  }

  /**
   * filterItem over any array: every output key belongs to an input entry that the rootFields
   * current at that entry select, and every such entry is kept.
   */
  lemma FilterItemSelected(tpl: seq<string>, es: seq<(Key, Value)>, roots: seq<string>, prefix: string)
    requires !(roots == [] || roots == ["*"])
    ensures forall k :: HasKey(FilterItemOf(tpl, Arr(es), roots, prefix).entries, k) ==>
      exists i {:trigger PickedAt(tpl, Arr(es), i, roots, prefix)} :: 0 <= i < |es| && es[i].0 == k && PickedAt(tpl, Arr(es), i, roots, prefix)
    ensures forall i {:trigger PickedAt(tpl, Arr(es), i, roots, prefix)} :: 0 <= i < |es| && PickedAt(tpl, Arr(es), i, roots, prefix) ==>
      HasKey(FilterItemOf(tpl, Arr(es), roots, prefix).entries, es[i].0)
    ensures es != [] ==> (PickedAt(tpl, Arr(es), 0, roots, prefix) <==> Selected(es[0].0, roots))
  {
    WalkKeysPicked(tpl, Arr(es), |es|, roots, prefix);
    WalkPickedKept(tpl, Arr(es), |es|, roots, prefix);
  }

  /** One step of filterItem's loop either skips the entry or writes its key; a string-keyed scalar is written as is. */
  lemma WalkStep(tpl: seq<string>, item: Value, n: nat, roots: seq<string>, prefix: string)
      returns (written: bool, v: Value)
    requires item.Arr? && 0 < n <= |item.entries|
    ensures var st := WalkOf(tpl, item, n - 1, roots, prefix).tmp;
      var out := WalkOf(tpl, item, n, roots, prefix).tmp;
      var e := item.entries[n - 1];
      && (!written ==> out == st)
      && (written ==> out == Put(st, e.0, v) && (e.0.StrKey? && !e.1.Arr? ==> v == e.1))
  {
    var st := WalkOf(tpl, item, n - 1, roots, prefix);
    var (column, value) := item.entries[n - 1];
    written := Selected(column, st.roots);
    if !written {
      v := value;
    } else if column.IntKey? {
      v := FilterItemOf(tpl, value, ExtractRootFields(ExtractFieldsFor(tpl, st.prefix)), st.prefix);
    } else if value.Arr? {
      var p := Extend(st.prefix, column);
      v := FilterItemOf(tpl, value, ExtractRootFields(ExtractFieldsFor(tpl, p)), p);
    } else {
      v := value;
    }
  }

  /** The key facts of WalkKeys survive one step that skips entry n-1 or writes its key. */
  lemma KeysAfterStep(es: seq<(Key, Value)>, n: nat, st: seq<(Key, Value)>, out: seq<(Key, Value)>, written: bool, v: Value)
    requires 0 < n <= |es| && !HasKey(es[..n - 1], es[n - 1].0)
    requires IsSubsequence(KeysOf(st), KeysOf(es[..n - 1]))
    requires !written ==> out == st
    requires written ==> out == Put(st, es[n - 1].0, v)
    ensures IsSubsequence(KeysOf(out), KeysOf(es[..n]))
    ensures forall k :: HasKey(out, k) ==> HasKey(es[..n], k)
  {
    var column := es[n - 1].0;
    var ks := KeysOf(es[..n - 1]);
    KeysOfPrefixStep(es, n);
    SubsequenceIn(KeysOf(st), ks);
    if written {
      PutFreshKeys(st, column, v);
    }
    SubsequenceStep(KeysOf(st), ks, column, KeysOf(out), written);
  }

  /** A skipped or appended key keeps a key list a subsequence of the input's keys. */
  lemma SubsequenceStep<T>(xs: seq<T>, ks: seq<T>, c: T, ys: seq<T>, written: bool)
    requires IsSubsequence(xs, ks) && c !in xs
    requires written ==> ys == xs + [c]
    requires !written ==> ys == xs
    ensures IsSubsequence(ys, ks + [c])
    ensures forall x :: x in ys ==> x in ks + [c]
  {
    SubsequenceIn(xs, ks);
    if written {
      SubsequenceSnoc(xs, ks, c);
    } else {
      SubsequenceSkip(xs, ks, c);
    }
  }

  lemma {:induction false} SubsequenceIn<T>(xs: seq<T>, ks: seq<T>)
    requires IsSubsequence(xs, ks)
    ensures forall x :: x in xs ==> x in ks
    decreases |ks|
  {
    if xs != [] && ks != [] {
      if xs[|xs| - 1] == ks[|ks| - 1] {
        SubsequenceIn(xs[..|xs| - 1], ks[..|ks| - 1]);
        assert xs == xs[..|xs| - 1] + [xs[|xs| - 1]];
        assert ks == ks[..|ks| - 1] + [ks[|ks| - 1]];
      } else {
        SubsequenceIn(xs, ks[..|ks| - 1]);
        assert ks == ks[..|ks| - 1] + [ks[|ks| - 1]];
      }
    }
  }

  lemma SubsequenceSnoc<T>(xs: seq<T>, ys: seq<T>, y: T)
    requires IsSubsequence(xs, ys)
    ensures IsSubsequence(xs + [y], ys + [y])
  {
    assert (xs + [y])[..|xs|] == xs;
    assert (ys + [y])[..|ys|] == ys;
  }

  /** The scalar facts of WalkScalars survive one step that skips entry n-1 or writes its key. */
  lemma ScalarsAfterStep(es: seq<(Key, Value)>, n: nat, st: seq<(Key, Value)>, out: seq<(Key, Value)>, written: bool, v: Value)
    requires 0 < n <= |es| && DistinctKeys(es)
    requires forall k :: HasKey(st, k) ==> HasKey(es[..n - 1], k)
    requires forall i :: (0 <= i < n - 1 && es[i].0.StrKey? && !es[i].1.Arr? && HasKey(st, es[i].0)) ==>
      Get(st, es[i].0) == Some(es[i].1)
    requires !written ==> out == st
    requires written ==> out == Put(st, es[n - 1].0, v) && (es[n - 1].0.StrKey? && !es[n - 1].1.Arr? ==> v == es[n - 1].1)
    ensures forall i :: (0 <= i < n && es[i].0.StrKey? && !es[i].1.Arr? && HasKey(out, es[i].0)) ==>
      Get(out, es[i].0) == Some(es[i].1)
  {
    var column := es[n - 1].0;
    assert !HasKey(es[..n - 1], column) by {
      DistinctKeysPrefix(es[..n - 1], es[n - 1..]);
    }
    forall i | 0 <= i < n && es[i].0.StrKey? && !es[i].1.Arr? && HasKey(out, es[i].0)
      ensures Get(out, es[i].0) == Some(es[i].1)
    {
      if i < n - 1 {
        assert es[i].0 != column by {
          assert es[i].0 == es[..n - 1][i].0;
          assert HasKey(es[..n - 1], es[i].0) by {
            assert KeysOf(es[..n - 1])[i] == es[i].0;
          }
        }
        if written {
          GetPut(st, column, v, es[i].0);
          PutKeys(st, column, v);
        }
      } else if written {
        GetPut(st, column, v, column);
      } else {
        assert false;
      }
    }
  }

  /** Over an item whose keys are distinct, the output keys are a subsequence of the input keys. */
  lemma {:induction false} WalkKeys(tpl: seq<string>, item: Value, n: nat, roots: seq<string>, prefix: string)
    requires item.Arr? && n <= |item.entries| && DistinctKeys(item.entries)
    ensures var out := WalkOf(tpl, item, n, roots, prefix).tmp;
      && IsSubsequence(KeysOf(out), KeysOf(item.entries[..n]))
      && (forall k :: HasKey(out, k) ==> HasKey(item.entries[..n], k))
    decreases n
  {
    if n > 0 {
      WalkKeys(tpl, item, n - 1, roots, prefix);
      var written, v := WalkStep(tpl, item, n, roots, prefix);
      DistinctKeysPrefix(item.entries[..n - 1], item.entries[n - 1..]);
      KeysAfterStep(item.entries, n, WalkOf(tpl, item, n - 1, roots, prefix).tmp,
        WalkOf(tpl, item, n, roots, prefix).tmp, written, v);
    }
  }

  /** Over an item whose keys are distinct, a string-keyed scalar that is kept is copied verbatim. */
  lemma {:induction false} WalkScalars(tpl: seq<string>, item: Value, n: nat, roots: seq<string>, prefix: string)
    requires item.Arr? && n <= |item.entries| && DistinctKeys(item.entries)
    ensures var out := WalkOf(tpl, item, n, roots, prefix).tmp;
      forall i :: (0 <= i < n && item.entries[i].0.StrKey? && !item.entries[i].1.Arr?
        && HasKey(out, item.entries[i].0)) ==> Get(out, item.entries[i].0) == Some(item.entries[i].1)
    decreases n
  {
    if n > 0 {
      WalkScalars(tpl, item, n - 1, roots, prefix);
      WalkKeys(tpl, item, n - 1, roots, prefix);
      var written, v := WalkStep(tpl, item, n, roots, prefix);
      ScalarsAfterStep(item.entries, n, WalkOf(tpl, item, n - 1, roots, prefix).tmp,
        WalkOf(tpl, item, n, roots, prefix).tmp, written, v);
    }
  }

  lemma SubsequenceSkip<T>(xs: seq<T>, ys: seq<T>, y: T)
    requires IsSubsequence(xs, ys) && y !in xs
    ensures IsSubsequence(xs, ys + [y])
  {
    assert (ys + [y])[..|ys|] == ys;
  }

  /** filterItem's result over an array with distinct keys: see WalkKeys and WalkScalars. */
  lemma FilterItemKeeps(tpl: seq<string>, es: seq<(Key, Value)>, roots: seq<string>, prefix: string)
    requires DistinctKeys(es) && !(roots == [] || roots == ["*"])
    ensures var out := FilterItemOf(tpl, Arr(es), roots, prefix).entries;
      && IsSubsequence(KeysOf(out), KeysOf(es))
      && (forall i :: 0 <= i < |es| && es[i].0.StrKey? && !es[i].1.Arr? && HasKey(out, es[i].0) ==>
            Get(out, es[i].0) == Some(es[i].1))
  {
    WalkKeys(tpl, Arr(es), |es|, roots, prefix);
    WalkScalars(tpl, Arr(es), |es|, roots, prefix);
    assert es[..|es|] == es;
  }

  /** The string-keyed scalar entries whose key is selected, in order. */
  function SelectFlat(es: seq<(Key, Value)>, roots: seq<string>): (r: seq<(Key, Value)>)
    ensures forall e :: e in r <==> e in es && Selected(e.0, roots)
    decreases |es|
  {
    if es == [] then []
    else
      var init := SelectFlat(es[..|es| - 1], roots);
      assert es == es[..|es| - 1] + [es[|es| - 1]];
      if Selected(es[|es| - 1].0, roots) then init + [es[|es| - 1]] else init
  }

  /**
   * On a flat record (string keys, scalar values, distinct keys) nothing narrows rootFields: the
   * output is exactly the selected entries, in order.
   */
  lemma {:induction false} WalkFlat(tpl: seq<string>, item: Value, n: nat, roots: seq<string>, prefix: string)
    requires item.Arr? && n <= |item.entries| && DistinctKeys(item.entries)
    requires forall i :: 0 <= i < |item.entries| ==> item.entries[i].0.StrKey? && !item.entries[i].1.Arr?
    ensures WalkOf(tpl, item, n, roots, prefix) == Walk(SelectFlat(item.entries[..n], roots), roots, prefix)
    decreases n
  {
    if n > 0 {
      var es := item.entries;
      WalkFlat(tpl, item, n - 1, roots, prefix);
      SelectFlatStep(es, n, roots);
    }
  }

  /** One more entry of a distinct-keyed list: its key is new to the selection so far, which it extends when selected. */
  lemma SelectFlatStep(es: seq<(Key, Value)>, n: nat, roots: seq<string>)
    requires 0 < n <= |es| && DistinctKeys(es)
    ensures !HasKey(SelectFlat(es[..n - 1], roots), es[n - 1].0)
    ensures SelectFlat(es[..n], roots) ==
      SelectFlat(es[..n - 1], roots) + (if Selected(es[n - 1].0, roots) then [es[n - 1]] else [])
  {
    SelectFlatFresh(es, n, roots);
    SelectFlatLast(es, n, roots);
  }

  lemma SelectFlatFresh(es: seq<(Key, Value)>, n: nat, roots: seq<string>)
    requires 0 < n <= |es| && DistinctKeys(es)
    ensures !HasKey(SelectFlat(es[..n - 1], roots), es[n - 1].0)
  {
    var prev := es[..n - 1];
    DistinctKeysPrefix(prev, es[n - 1..]);
    EntriesKeys(SelectFlat(prev, roots), prev);
  }

  lemma SelectFlatLast(es: seq<(Key, Value)>, n: nat, roots: seq<string>)
    requires 0 < n <= |es|
    ensures SelectFlat(es[..n], roots) ==
      SelectFlat(es[..n - 1], roots) + (if Selected(es[n - 1].0, roots) then [es[n - 1]] else [])
  {
    assert es[..n][..n - 1] == es[..n - 1];
  }

  // ---------------------------------------------------------------------------
  // filter, handle
  // ---------------------------------------------------------------------------

  /** filter($list): every item filtered from the top roots, collected as a list. */
  function FilterListOf(tpl: seq<string>, list: seq<(Key, Value)>): (r: seq<(Key, Value)>)
    ensures |r| == |list|
    ensures forall i :: 0 <= i < |list| ==> r[i] == (IntKey(i), FilterItemOf(tpl, list[i].1, TopRoots(tpl), ""))
  {
    ListOf(seq(|list|, i requires 0 <= i < |list| => FilterItemOf(tpl, list[i].1, TopRoots(tpl), "")))
  }

  /** filter() */
  method FilterList(tpl: seq<string>, list: seq<(Key, Value)>) returns (data: seq<(Key, Value)>)
    ensures data == FilterListOf(tpl, list)
  {
    var rootFields := TopRoots(tpl);
    data := [];
    for i := 0 to |list|
      invariant |data| == i
      invariant forall j :: 0 <= j < i ==> data[j] == (IntKey(j), FilterItemOf(tpl, list[j].1, rootFields, ""))
    {
      var v := FilterItem(tpl, list[i].1, rootFields, "");
      assert NextIndex(data) == i by {
        AppendIndex(data);
      }
      data := data + [(IntKey(NextIndex(data)), v)];
    }
  }

  /** In a list 0 .. n-1, `$a[]` uses n. */
  lemma {:induction false} AppendIndex(data: seq<(Key, Value)>)
    requires forall j :: 0 <= j < |data| ==> data[j].0 == IntKey(j)
    ensures NextIndex(data) == |data|
    decreases |data|
  {
    if data != [] {
      var tail := data[1..];
      assert forall j :: 0 <= j < |tail| ==> tail[j].0 == IntKey(j + 1);
      ShiftedIndex(tail, 1);
    }
  }

  lemma {:induction false} ShiftedIndex(data: seq<(Key, Value)>, d: nat)
    requires forall j :: 0 <= j < |data| ==> data[j].0 == IntKey(j + d)
    ensures data != [] ==> NextIndex(data) == |data| + d
    decreases |data|
  {
    if |data| > 1 {
      var tail := data[1..];
      assert forall j :: 0 <= j < |tail| ==> tail[j].0 == IntKey(j + d + 1);
      ShiftedIndex(tail, d + 1);
    } else if |data| == 1 {
      assert data[1..] == [];
    }
  }

  /** `$a[$k]`, null when the key is missing. */
  function At(a: seq<(Key, Value)>, k: Key): (v: Value)
    ensures HasKey(a, k) ==> Some(v) == Get(a, k)
    ensures !HasKey(a, k) ==> v == Null
  {
    if HasKey(a, k) then Get(a, k).value else Null
  }

  /** `isset($a[$k])`: the key is there and its value is not null. */
  predicate Isset(a: seq<(Key, Value)>, k: Key)
  {
    Get(a, k).Some? && Get(a, k).value != Null
  }

  /** `isset($data[0])` on whatever the unwrapped body is: an array entry, or a string's first byte. */
  predicate HasFirst(v: Value)
  {
    match v
    case Arr(es) => Isset(es, IntKey(0))
    case Str(s) => |s| > 0
    case _ => false
  }

  /** The value handle() goes on with: the wrapped value when the wrap key is set, else the body. */
  function Unwrapped(wrap: string, data: seq<(Key, Value)>): Value
  {
    if StrTruthy(wrap) && Isset(data, KeyOf(wrap)) then At(data, KeyOf(wrap)) else Arr(data)
  }

  /**
   * handle(): the body after the filter, or None where PHP raises a TypeError (a paginated body
   * whose `data` is not an array, or a non-empty string where a list was expected). `wrap` is
   * JsonResource::$wrap, "" when unset.
   */
  function HandleOf(selector: string, wrap: string, data: seq<(Key, Value)>): (r: Option<Value>)
    ensures Isset(data, StrKey("links")) && At(data, StrKey("data")).Arr? ==>
      r == Some(Arr(Put(data, StrKey("data"), Arr(FilterListOf(FieldArray(selector), At(data, StrKey("data")).entries)))))
    ensures Isset(data, StrKey("links")) && !At(data, StrKey("data")).Arr? ==> r == None
    ensures !Isset(data, StrKey("links")) && StrTruthy(wrap) && !Isset(data, KeyOf(wrap)) ==> r == Some(Arr(data))
    ensures !Isset(data, StrKey("links")) && (StrTruthy(wrap) ==> Isset(data, KeyOf(wrap))) ==>
      var body := Unwrapped(wrap, data);
      && (HasFirst(body) && body.Arr? ==> r == Some(Arr(FilterListOf(FieldArray(selector), body.entries))))
      && (HasFirst(body) && !body.Arr? ==> r == None)
      && (!HasFirst(body) ==> r == Some(FilterItemOf(FieldArray(selector), body, TopRoots(FieldArray(selector)), "")))
  {
    var tpl := FieldArray(selector);
    if Isset(data, StrKey("links")) then
      var inner := At(data, StrKey("data"));
      if inner.Arr? then Some(Arr(Put(data, StrKey("data"), Arr(FilterListOf(tpl, inner.entries))))) else None
    else
      var body := if StrTruthy(wrap) && Isset(data, KeyOf(wrap)) then At(data, KeyOf(wrap)) else Arr(data);
      if StrTruthy(wrap) && !Isset(data, KeyOf(wrap)) then Some(Arr(data))
      else if HasFirst(body) then
        if body.Arr? then Some(Arr(FilterListOf(tpl, body.entries))) else None
      else Some(FilterItemOf(tpl, body, TopRoots(tpl), ""))
  }

  /** With pagination links, every key but `data` is left as it was. */
  lemma HandlePaginated(selector: string, wrap: string, data: seq<(Key, Value)>, k: Key)
    requires Isset(data, StrKey("links")) && At(data, StrKey("data")).Arr? && k != StrKey("data")
    ensures HandleOf(selector, wrap, data).Some? && HandleOf(selector, wrap, data).value.Arr?
    ensures Get(HandleOf(selector, wrap, data).value.entries, k) == Get(data, k)
  {
    var inner := At(data, StrKey("data"));
    GetPut(data, StrKey("data"), Arr(FilterListOf(FieldArray(selector), inner.entries)), k);
  }

  /**
   * With the wrap key present, the inner value is what is filtered, and it is not re-wrapped: a
   * wrapped list (`{"data": [...]}`) is filtered item by item, a wrapped record as one item.
   */
  lemma HandleUnwraps(selector: string, wrap: string, data: seq<(Key, Value)>)
    requires !Isset(data, StrKey("links")) && StrTruthy(wrap) && Isset(data, KeyOf(wrap))
    ensures var inner := At(data, KeyOf(wrap));
      var tpl := FieldArray(selector);
      && (inner.Arr? && Isset(inner.entries, IntKey(0)) ==>
            HandleOf(selector, wrap, data) == Some(Arr(FilterListOf(tpl, inner.entries))))
      && (!HasFirst(inner) ==> HandleOf(selector, wrap, data) == Some(FilterItemOf(tpl, inner, TopRoots(tpl), "")))
  {
  }

  /** handle() on the response body, after its conversion to arrays. */
  method Handle(selector: string, wrap: string, body: seq<(Key, Value)>) returns (r: Option<Value>)
    ensures r == HandleOf(selector, wrap, body)
  {
    var tpl := FieldArray(selector);
    var data := body;
    if Isset(data, StrKey("links")) {
      var inner := At(data, StrKey("data"));
      if !inner.Arr? {
        return None;
      }
      var filtered := FilterList(tpl, inner.entries);
      data := Put(data, StrKey("data"), Arr(filtered));
      return Some(Arr(data));
    }
    var current := Arr(data);
    if StrTruthy(wrap) {
      if !Isset(data, KeyOf(wrap)) {
        return Some(Arr(data));
      }
      current := At(data, KeyOf(wrap));
    }
    if HasFirst(current) {
      if !current.Arr? {
        return None;
      }
      var filtered := FilterList(tpl, current.entries);
      return Some(Arr(filtered));
    }
    var rootFields := TopRoots(tpl);
    var v := FilterItem(tpl, current, rootFields, "");
    r := Some(v);
  }
}

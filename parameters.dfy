/**
 * Parameters: how a smart form request reads its query parameters. `relations=a.b,c` asks for the
 * relations a, a.b and c (every dot-prefix of every path, camel-cased); `sort=type,-id` sorts by
 * type ascending then id descending, only over the columns the request allows.
 * Query values arrive as strings; `None` is a parameter that is not there.
 */
module RequestParameters {
  import opened Php

  // ---------------------------------------------------------------------------
  // getFilter, getRelations, getFields, getSort
  // ---------------------------------------------------------------------------

  /** getFilter(): `(array)$this->input('filter', [])` */
  function Filter(input: Option<Value>): (r: seq<(Key, Value)>)
    ensures input.None? ==> r == []
    ensures input.Some? && input.value.Arr? ==> r == input.value.entries
    ensures input.Some? && !input.value.Arr? && !input.value.Null? ==> r == [(IntKey(0), input.value)]
  {
    if input.None? then [] else AsArray(input.value)
  }

  /** getFields(): every field (`*`) unless the client names some. */
  function Fields(input: Option<string>): (r: string)
    ensures input.None? ==> r == "*"
    ensures input.Some? ==> r == input.value
  {
    if input.None? then "*" else input.value
  }

  /** getRelations() and getSort(): the string, empty when absent. */
  function StringParam(input: Option<string>): (r: string)
    ensures input.None? ==> r == ""
    ensures input.Some? ==> r == input.value
  {
    if input.None? then "" else input.value
  }

  // ---------------------------------------------------------------------------
  // splitRelations
  // ---------------------------------------------------------------------------

  /** `substr($str, 0, strpos($str, '.'))`: the segment before the first dot. */
  function Head(str: string): (h: string)
    ensures h <= str && '.' !in h
    ensures '.' in str ==> |h| < |str| && str[|h|] == '.'
  {
    BeforeFirst(str, '.')
  }

  /** `trim(substr($str, strpos($str, '.')), '.')`: what follows the first dot, dots trimmed. */
  function Rest(str: string): (r: string)
    requires '.' in str
    ensures |r| < |str|
  {
    TrimShorter(str[|Head(str)|..], {'.'});
    Trim(str[|Head(str)|..], {'.'})
  }

  /**
   * The entries splitRelations' loop adds from the state (`first`, `str`): while `str` is not
   * empty and holds a dot, extend `first` with the segment before the dot, record it trimmed of
   * dots, and continue after the dot.
   */
  function SplitLoop(first: string, str: string): (tmp: seq<string>)
    decreases |str|
  {
    if !StrTruthy(str) || '.' !in str then []
    else [Trim(first + "." + Head(str), {'.'})] + SplitLoop(first + "." + Head(str), Rest(str))
  }

  /** splitRelations($str): the dot-prefixes the loop finds, then the whole string. */
  function SplitRelationsOf(s: string): (r: seq<string>)
    ensures |r| >= 1 && r[|r| - 1] == s
    ensures '.' !in s ==> r == [s]
  {
    SplitLoop("", s) + [s]
  }

  /** One turn of splitRelations' loop moves one entry from what is left to what was recorded. */
  lemma SplitLoopStep(first: string, str: string, tmp: seq<string>)
    requires StrTruthy(str) && '.' in str
    ensures tmp + SplitLoop(first, str) ==
      (tmp + [Trim(first + "." + Head(str), {'.'})]) + SplitLoop(first + "." + Head(str), Rest(str))
  {
    var first' := first + "." + Head(str);
    var x := Trim(first', {'.'});
    var later := SplitLoop(first', Rest(str));
    assert SplitLoop(first, str) == [x] + later;
    assert tmp + ([x] + later) == (tmp + [x]) + later;
  }

  /** The loop stops adding entries once nothing is left or no dot remains. */
  lemma SplitLoopEnd(first: string, str: string)
    requires !StrTruthy(str) || '.' !in str
    ensures SplitLoop(first, str) == []
  {
  }

  /** splitRelations() */
  method SplitRelations(s: string) returns (tmp: seq<string>)
    ensures tmp == SplitRelationsOf(s)
  {
    tmp := [];
    var first := "";
    var str := s;
    while StrTruthy(str)
      invariant tmp + SplitLoop(first, str) == SplitLoop("", s)
      decreases |str|
    {
      if '.' !in str {
        break;
      }
      var head, rest := Head(str), Rest(str);
      SplitLoopStep(first, str, tmp);
      first := first + "." + head;
      tmp := tmp + [Trim(first, {'.'})];
      str := rest;
    }
    SplitLoopEnd(first, str);
    assert tmp == SplitLoop("", s);
    tmp := tmp + [s];
  }

  /** A non-empty path segment without a dot. */
  predicate Segment(x: string)
  {
    x != [] && '.' !in x
  }

  /** A well-formed relation path: at least one segment, each non-empty and dot-free. */
  predicate Path(segs: seq<string>)
  {
    |segs| >= 1 && forall i :: 0 <= i < |segs| ==> Segment(segs[i])
  }

  /** The path `segs[0] . … . segs[n-1]` for each n from 1 to |segs|. */
  function Prefixes(segs: seq<string>): (r: seq<string>)
    ensures |r| == |segs| && forall i :: 0 <= i < |segs| ==> r[i] == Join(segs[..i + 1], ".")
  {
    seq(|segs|, i requires 0 <= i < |segs| => Join(segs[..i + 1], "."))
  }

  lemma {:induction false} JoinEnds(segs: seq<string>)
    requires Path(segs)
    ensures var j := Join(segs, ".");
      && j != [] && j[0] == segs[0][0] && j[|j| - 1] == segs[|segs| - 1][|segs[|segs| - 1]| - 1]
      && j[0] != '.' && j[|j| - 1] != '.'
    decreases |segs|
  {
    if |segs| > 1 {
      JoinEnds(segs[1..]);
      assert Join(segs, ".") == segs[0] + "." + Join(segs[1..], ".");
    }
  }

  lemma {:induction false} JoinSnoc(done: seq<string>, x: string)
    requires done != []
    ensures Join(done + [x], ".") == Join(done, ".") + "." + x
    decreases |done|
  {
    if |done| == 1 {
      assert done + [x] == [done[0], x];
      assert [done[0], x][1..] == [x];
    } else {
      JoinSnoc(done[1..], x);
      assert (done + [x])[1..] == done[1..] + [x];
    }
  }

  /** The value of `first` after the segments in `done` were consumed. */
  function DotJoin(done: seq<string>): string
  {
    if done == [] then "" else "." + Join(done, ".")
  }

  /** A path of two segments or more is its first segment, a dot, and the path of the others. */
  lemma JoinCons(rest: seq<string>)
    requires |rest| >= 2
    ensures Join(rest, ".") == rest[0] + ['.'] + Join(rest[1..], ".")
  {
  }

  lemma PathTail(rest: seq<string>)
    requires Path(rest) && |rest| >= 2
    ensures Path(rest[1..])
  {
    forall i | 0 <= i < |rest| - 1 ensures Segment(rest[1..][i]) {
      assert rest[1..][i] == rest[i + 1];
    }
  }

  lemma PathSnoc(done: seq<string>, x: string)
    requires forall i :: 0 <= i < |done| ==> Segment(done[i])
    requires Segment(x)
    ensures Path(done + [x])
  {
    forall i | 0 <= i < |done| + 1 ensures Segment((done + [x])[i]) {
      if i < |done| {
        assert (done + [x])[i] == done[i];
      }
    }
  }

  /** Head and Rest split `a.tail` at its first dot when `tail` neither starts nor ends with one. */
  lemma HeadRest(a: string, tail: string)
    requires '.' !in a && tail != [] && tail[0] != '.' && tail[|tail| - 1] != '.'
    ensures StrTruthy(a + ['.'] + tail) && '.' in a + ['.'] + tail
    ensures Head(a + ['.'] + tail) == a
    ensures Rest(a + ['.'] + tail) == tail
  {
    var str := a + ['.'] + tail;
    assert str[|a|] == '.';
    BeforeFirstConcat(a, tail, '.');
    assert str[|a|..] == ['.'] + tail;
    TrimLead('.', tail, {'.'});
  }

  /** On a path of two segments or more, the loop sees the first segment and then the rest of the path. */
  lemma HeadRestOfPath(rest: seq<string>)
    requires Path(rest) && |rest| >= 2
    ensures var str := Join(rest, ".");
      && StrTruthy(str) && '.' in str
      && Head(str) == rest[0]
      && Rest(str) == Join(rest[1..], ".")
  {
    JoinCons(rest);
    PathTail(rest);
    JoinEnds(rest[1..]);
    HeadRest(rest[0], Join(rest[1..], "."));
  }

  /** `first` grows by one segment. */
  lemma DotJoinGrows(done: seq<string>, x: string)
    requires Segment(x)
    ensures DotJoin(done) + "." + x == DotJoin(done + [x])
  {
    if done != [] {
      JoinSnoc(done, x);
    } else {
      assert [] + [x] == [x];
    }
  }

  /** Trimmed of dots, `first` is the path so far. */
  lemma DotJoinTrimmed(done: seq<string>, x: string)
    requires forall i :: 0 <= i < |done| ==> Segment(done[i])
    requires Segment(x)
    ensures Trim(DotJoin(done + [x]), {'.'}) == Join(done + [x], ".")
  {
    PathSnoc(done, x);
    var j := Join(done + [x], ".");
    JoinEnds(done + [x]);
    assert DotJoin(done + [x]) == ['.'] + j;
    TrimLead('.', j, {'.'});
  }

  lemma PrefixShift(done: seq<string>, rest: seq<string>, i: int)
    requires 0 <= i < |rest| - 1
    ensures i == 0 ==> done + rest[..i + 1] == done + [rest[0]]
    ensures i > 0 ==> done + rest[..i + 1] == (done + [rest[0]]) + rest[1..][..i]
  {
    assert rest[..i + 1] == [rest[0]] + rest[1..][..i];
  }

  /** The prefixes recorded after one more segment, shifted by the one recorded for it. */
  lemma ShiftedPrefixes(done: seq<string>, rest: seq<string>, r: seq<string>, later: seq<string>)
    requires |rest| >= 2 && r == [Join(done + [rest[0]], ".")] + later && |later| == |rest| - 2
    requires forall i :: 0 <= i < |rest| - 2 ==> later[i] == Join((done + [rest[0]]) + rest[1..][..i + 1], ".")
    ensures forall i :: 0 <= i < |rest| - 1 ==> r[i] == Join(done + rest[..i + 1], ".")
  {
    forall i | 0 <= i < |rest| - 1 ensures r[i] == Join(done + rest[..i + 1], ".") {
      PrefixShift(done, rest, i);
      if i > 0 {
        assert r[i] == later[i - 1];
      }
    }
  }

  /** One step of the loop, with its pieces named. */
  lemma SplitLoopAt(first: string, str: string, h: string, t: string, first': string)
    requires StrTruthy(str) && '.' in str && Head(str) == h && Rest(str) == t && first + "." + h == first'
    ensures SplitLoop(first, str) == [Trim(first', {'.'})] + SplitLoop(first', t)
  {
    SplitLoopStep(first, str, []);
  }

  /** From the state after `done`, the loop records `done + rest[..1]`, …, all but the whole path. */
  lemma {:induction false} SplitLoopPath(done: seq<string>, rest: seq<string>)
    requires forall i :: 0 <= i < |done| ==> Segment(done[i])
    requires Path(rest)
    ensures var r := SplitLoop(DotJoin(done), Join(rest, "."));
      |r| == |rest| - 1 && forall i :: 0 <= i < |rest| - 1 ==> r[i] == Join(done + rest[..i + 1], ".")
    decreases |rest|
  {
    if |rest| == 1 {
      assert Join(rest, ".") == rest[0];
    } else {
      var done' := done + [rest[0]];
      SplitLoopPathStep(done, rest);
      PathTail(rest);
      SplitLoopPath(done', rest[1..]);
      var later := SplitLoop(DotJoin(done'), Join(rest[1..], "."));
      ShiftedPrefixes(done, rest, SplitLoop(DotJoin(done), Join(rest, ".")), later);
    }
  }

  /** On a path of two segments or more, the loop records the first prefix and moves one segment on. */
  lemma SplitLoopPathStep(done: seq<string>, rest: seq<string>)
    requires forall i :: 0 <= i < |done| ==> Segment(done[i])
    requires Path(rest) && |rest| >= 2
    ensures forall i :: 0 <= i < |done| + 1 ==> Segment((done + [rest[0]])[i])
    ensures SplitLoop(DotJoin(done), Join(rest, ".")) ==
      [Join(done + [rest[0]], ".")] + SplitLoop(DotJoin(done + [rest[0]]), Join(rest[1..], "."))
  {
    var done' := done + [rest[0]];
    PathSnoc(done, rest[0]);
    HeadRestOfPath(rest);
    DotJoinGrows(done, rest[0]);
    DotJoinTrimmed(done, rest[0]);
    SplitLoopAt(DotJoin(done), Join(rest, "."), rest[0], Join(rest[1..], "."), DotJoin(done'));
  }

  /** The prefixes the loop records, followed by the whole path, are all the dot-prefixes. */
  lemma AllPrefixes(segs: seq<string>, loop: seq<string>)
    requires |segs| >= 1 && |loop| == |segs| - 1
    requires forall i :: 0 <= i < |segs| - 1 ==> loop[i] == Join([] + segs[..i + 1], ".")
    ensures loop + [Join(segs, ".")] == Prefixes(segs)
  {
    var r := loop + [Join(segs, ".")];
    forall i | 0 <= i < |segs| ensures r[i] == Join(segs[..i + 1], ".") {
      if i < |segs| - 1 {
        assert [] + segs[..i + 1] == segs[..i + 1];
      } else {
        assert segs[..i + 1] == segs;
      }
    }
  }

  /** For a well-formed path, splitRelations gives every dot-prefix, ending with the whole path. */
  lemma SplitRelationsPrefixes(segs: seq<string>)
    requires Path(segs)
    ensures SplitRelationsOf(Join(segs, ".")) == Prefixes(segs)
  {
    SplitLoopPath([], segs);
    AllPrefixes(segs, SplitLoop(DotJoin([]), Join(segs, ".")));
  }

  // ---------------------------------------------------------------------------
  // getFilteredRelations
  // ---------------------------------------------------------------------------

  /** The camel-cased keys that are not empty(): "" and "0" are skipped. */
  function CamelKeys(keys: seq<string>, camel: string -> string): (r: seq<string>)
    ensures |r| <= |keys|
    decreases |keys|
  {
    if keys == [] then []
    else
      var last := keys[|keys| - 1];
      CamelKeys(keys[..|keys| - 1], camel) + (if StrTruthy(last) then [camel(last)] else [])
  }

  /** The relations one comma-separated piece asks for. */
  function PieceRelations(camel: string -> string): (f: string -> seq<string>)
  {
    p => CamelKeys(SplitRelationsOf(p), camel)
  }

  lemma PieceRelationsOf(p: string, camel: string -> string)
    ensures PieceRelations(camel)(p) == CamelKeys(SplitRelationsOf(p), camel)
  {
  }

  /** getFilteredRelations(), `camel` standing for Str::camel. */
  function FilteredRelationsOf(relations: string, camel: string -> string): (r: seq<string>)
    ensures !StrTruthy(relations) ==> r == []
  {
    if !StrTruthy(relations) then [] else FlatMap(Split(relations, ','), PieceRelations(camel))
  }

  /** The inner foreach of getFilteredRelations(): append the camel case of each key that is not empty(). */
  method AppendRelationKeys(done: seq<string>, keys: seq<string>, camel: string -> string) returns (rs: seq<string>)
    ensures rs == done + CamelKeys(keys, camel)
  {
    rs := done;
    for j := 0 to |keys|
      invariant rs == done + CamelKeys(keys[..j], camel)
    {
      CamelKeysPrefix(keys, j, camel);
      if !StrTruthy(keys[j]) {
        continue;
      }
      rs := rs + [camel(keys[j])];
    }
    assert keys[..|keys|] == keys;
  }

  /** getFilteredRelations() */
  method FilteredRelations(relations: string, camel: string -> string) returns (rs: seq<string>)
    ensures rs == FilteredRelationsOf(relations, camel)
  {
    rs := [];
    if StrTruthy(relations) {
      var pieces := Split(relations, ',');
      var relationsOf := PieceRelations(camel);
      for i := 0 to |pieces|
        invariant rs == FlatMap(pieces[..i], relationsOf)
      {
        var keys := SplitRelations(pieces[i]);
        PieceRelationsOf(pieces[i], camel);
        rs := AppendRelationKeys(rs, keys, camel);
        FlatMapPrefix(pieces, i, relationsOf);
      }
      assert pieces[..|pieces|] == pieces;
    }
  }

  lemma CamelKeysPrefix(keys: seq<string>, j: int, camel: string -> string)
    requires 0 <= j < |keys|
    ensures CamelKeys(keys[..j + 1], camel) ==
      CamelKeys(keys[..j], camel) + (if StrTruthy(keys[j]) then [camel(keys[j])] else [])
  {
    assert keys[..j + 1][..j] == keys[..j];
  }

  lemma {:induction false} CamelKeysAll(keys: seq<string>, camel: string -> string)
    requires forall i :: 0 <= i < |keys| ==> StrTruthy(keys[i])
    ensures CamelKeys(keys, camel) == seq(|keys|, i requires 0 <= i < |keys| => camel(keys[i]))
    decreases |keys|
  {
    if keys != [] {
      CamelKeysAll(keys[..|keys| - 1], camel);
    }
  }

  /** A piece that is empty() contributes nothing. */
  lemma FalsyPiece(p: string, camel: string -> string)
    requires !StrTruthy(p)
    ensures PieceRelations(camel)(p) == []
  {
    assert '.' !in p;
    assert SplitRelationsOf(p) == [p];
    assert [p][..0] == [];
  }

  /** Every dot-prefix of a path whose first segment is not "0" passes empty(). */
  lemma PrefixesTruthy(segs: seq<string>)
    requires Path(segs) && segs[0] != "0"
    ensures forall i :: 0 <= i < |segs| ==> StrTruthy(Prefixes(segs)[i])
  {
    var prefixes := Prefixes(segs);
    forall i | 0 <= i < |segs| ensures StrTruthy(prefixes[i]) {
      var init := segs[..i + 1];
      assert Path(init) by {
        forall k | 0 <= k < |init| ensures Segment(init[k]) {
          assert init[k] == segs[k];
        }
      }
      JoinEnds(init);
      if i > 0 {
        JoinSnoc(segs[..i], segs[i]);
        assert segs[..i] + [segs[i]] == init;
        var j := Join(segs[..i], ".");
        assert prefixes[i][|j|] == '.';
      } else {
        assert init == [segs[0]];
      }
    }
  }

  /** The camel case of each dot-prefix, when none of them is skipped. */
  lemma CamelPrefixes(segs: seq<string>, camel: string -> string)
    requires Path(segs) && segs[0] != "0"
    ensures CamelKeys(Prefixes(segs), camel) ==
      seq(|segs|, i requires 0 <= i < |segs| => camel(Join(segs[..i + 1], ".")))
  {
    PrefixesTruthy(segs);
    CamelKeysAll(Prefixes(segs), camel);
  }

  /** The relations one well-formed path asks for. */
  lemma PathRelations(segs: seq<string>, camel: string -> string)
    requires Path(segs) && segs[0] != "0"
    ensures PieceRelations(camel)(Join(segs, ".")) ==
      seq(|segs|, i requires 0 <= i < |segs| => camel(Join(segs[..i + 1], ".")))
  {
    var p := Join(segs, ".");
    assert PieceRelations(camel)(p) == CamelKeys(SplitRelationsOf(p), camel);
    SplitRelationsPrefixes(segs);
    CamelPrefixes(segs, camel);
  }

  /**
   * One well-formed path gives the camel case of each of its dot-prefixes, shortest first (as
   * long as its first segment is not "0", which empty() would skip).
   */
  lemma FilteredRelationsOfPath(segs: seq<string>, camel: string -> string)
    requires Path(segs) && segs[0] != "0"
    requires forall i :: 0 <= i < |segs| ==> ',' !in segs[i]
    ensures FilteredRelationsOf(Join(segs, "."), camel) ==
      seq(|segs|, i requires 0 <= i < |segs| => camel(Join(segs[..i + 1], ".")))
  {
    var p := Join(segs, ".");
    PrefixesTruthy(segs);
    assert segs[..|segs|] == segs;
    assert StrTruthy(p);
    JoinNoChar(segs, ".", ',');
    SplitNoSep(p, ',');
    FlatMapOne(p, PieceRelations(camel));
    PathRelations(segs, camel);
  }

  /**
   * The pieces between commas are handled one after another, and nothing is de-duplicated:
   * `p1,p2` gives the relations of p1 followed by those of p2.
   */
  lemma FilteredRelationsConcat(p1: string, p2: string, camel: string -> string)
    requires ',' !in p1
    ensures FilteredRelationsOf(p1 + "," + p2, camel) ==
      FilteredRelationsOf(p1, camel) + FilteredRelationsOf(p2, camel)
  {
    var f := PieceRelations(camel);
    SplitConcat(p1, p2, ',');
    assert p1 + "," + p2 == p1 + [','] + p2;
    assert (p1 + "," + p2)[|p1|] == ',';
    assert StrTruthy(p1 + "," + p2);
    FlatMapConcat([p1], Split(p2, ','), f);
    FlatMapOne(p1, f);
    if !StrTruthy(p1) {
      FalsyPiece(p1, camel);
    } else {
      SplitNoSep(p1, ',');
    }
    if !StrTruthy(p2) {
      SplitNoSep(p2, ',');
      FlatMapOne(p2, f);
      FalsyPiece(p2, camel);
    }
  }

  // ---------------------------------------------------------------------------
  // getResolvedSorts
  // ---------------------------------------------------------------------------

  /** ValidationException: the column may not be sorted on. */
  datatype SortError = SortNotAllowed(column: string)

  /** The message attached to the `relations` key of the exception. */
  function SortErrorMessage(e: SortError): string
  {
    e.column + "字段不允许排序"
  }

  /** An empty sort defaults to the first allowed column, and the second after a comma when there is one. */
  function DefaultSort(allowed: seq<string>, sort: string): (s: string)
    ensures StrTruthy(sort) || allowed == [] ==> s == sort
    ensures !StrTruthy(sort) && |allowed| == 1 ==> s == allowed[0]
    ensures !StrTruthy(sort) && |allowed| >= 2 ==> s == allowed[0] + "," + allowed[1]
  {
    if !StrTruthy(sort) && |allowed| > 0 then
      allowed[0] + (if |allowed| > 1 then "," + allowed[1] else "")
    else sort
  }

  /** The allowed columns with `-` trimmed from both ends. */
  function Stripped(allowed: seq<string>): (r: seq<string>)
    ensures |r| == |allowed| && forall i :: 0 <= i < |allowed| ==> r[i] == Trim(allowed[i], {'-'})
  {
    seq(|allowed|, i requires 0 <= i < |allowed| => Trim(allowed[i], {'-'}))
  }

  lemma StrippedTwice(allowed: seq<string>)
    ensures Stripped(Stripped(allowed)) == Stripped(allowed)
  {
    forall i | 0 <= i < |allowed| ensures Trim(Trim(allowed[i], {'-'}), {'-'}) == Trim(allowed[i], {'-'}) {
      TrimTwice(allowed[i], {'-'});
    }
  }

  /** Stripping the allowed columns again, as every turn of the loop does, changes nothing after the first time. */
  lemma StripAgain(allowed: seq<string>, current: seq<string>)
    requires current == allowed || current == Stripped(allowed)
    ensures Stripped(current) == Stripped(allowed)
  {
    StrippedTwice(allowed);
  }

  /** One comma-separated token: nothing when blank, else its column and direction. */
  function SortToken(token: string): (r: Option<(string, string)>)
    ensures r.None? <==> !StrTruthy(Trim(token, Blank))
    ensures r.Some? ==> (r.value.1 == "desc" <==> '-' in Trim(token, Blank))
    ensures r.Some? ==> (r.value.1 == "asc" <==> '-' !in Trim(token, Blank))
    ensures r.Some? && '-' !in Trim(token, Blank) ==> r.value.0 == Trim(token, Blank)
    ensures r.Some? && '-' in Trim(token, Blank) ==> r.value.0 == Trim(Trim(token, Blank), {'-'})
  {
    var value := Trim(token, Blank);
    if !StrTruthy(value) then None
    else if '-' in value then Some((Trim(value, {'-'}), "desc"))
    else Some((value, "asc"))
  }

  /** The sort pairs of the tokens that are not blank, in order. */
  function Parsed(tokens: seq<string>): (r: seq<(string, string)>)
    decreases |tokens|
  {
    if tokens == [] then []
    else
      var t := SortToken(tokens[|tokens| - 1]);
      Parsed(tokens[..|tokens| - 1]) + (if t.Some? then [t.value] else [])
  }

  /**
   * The loop of getResolvedSorts over the tokens: the pairs in order, or the first column that
   * is not allowed.
   */
  function ResolveTokens(tokens: seq<string>, allowed: seq<string>): Result<seq<(string, string)>, SortError>
    decreases |tokens|
  {
    if tokens == [] then Ok([])
    else
      var init := ResolveTokens(tokens[..|tokens| - 1], allowed);
      var t := SortToken(tokens[|tokens| - 1]);
      if init.Err? then init
      else if t.None? then init
      else if t.value.0 !in allowed then Err(SortNotAllowed(t.value.0))
      else Ok(init.value + [t.value])
  }

  /**
   * The loop succeeds exactly when every parsed column is allowed, and then returns the parsed
   * pairs in order; otherwise it names a parsed column that is not allowed.
   */
  lemma {:induction false} ResolveTokensMeaning(tokens: seq<string>, allowed: seq<string>)
    ensures var r := ResolveTokens(tokens, allowed);
      && (r.Ok? <==> forall p :: p in Parsed(tokens) ==> p.0 in allowed)
      && (r.Ok? ==> r.value == Parsed(tokens))
      && (r.Err? ==> r.error.column !in allowed && exists p :: p in Parsed(tokens) && p.0 == r.error.column)
    decreases |tokens|
  {
    if tokens != [] {
      ResolveTokensMeaning(tokens[..|tokens| - 1], allowed);
    }
  }

  /** getResolvedSorts(): the sort pairs, or the first column that may not be sorted on. */
  function ResolvedSortsOf(allowed: seq<string>, sort: string): (r: Result<seq<(string, string)>, SortError>)
    ensures !StrTruthy(sort) && allowed == [] ==> r == Ok([])
    ensures r.Ok? ==> forall p :: p in r.value ==> p.0 in Stripped(allowed) && (p.1 == "asc" || p.1 == "desc")
    ensures r.Err? ==> r.error.column !in Stripped(allowed)
  {
    var s := DefaultSort(allowed, sort);
    ParsedDirections(Split(s, ','));
    ResolveTokensMeaning(Split(s, ','), Stripped(allowed));
    if !StrTruthy(s) then Ok([]) else ResolveTokens(Split(s, ','), Stripped(allowed))
  }

  lemma {:induction false} ParsedDirections(tokens: seq<string>)
    ensures forall p :: p in Parsed(tokens) ==> p.1 == "asc" || p.1 == "desc"
    decreases |tokens|
  {
    if tokens != [] {
      ParsedDirections(tokens[..|tokens| - 1]);
    }
  }

  /** Once a prefix of the tokens has failed, the later tokens do not change the error. */
  lemma {:induction false} ResolveErrorSticks(tokens: seq<string>, n: nat, allowed: seq<string>)
    requires n <= |tokens| && ResolveTokens(tokens[..n], allowed).Err?
    ensures ResolveTokens(tokens, allowed) == ResolveTokens(tokens[..n], allowed)
    decreases |tokens| - n
  {
    if n < |tokens| {
      assert tokens[..n + 1][..n] == tokens[..n];
      ResolveErrorSticks(tokens, n + 1, allowed);
    } else {
      assert tokens[..n] == tokens;
    }
  }

  /** One more token either leaves the pairs as they are, adds its pair, or fails on its column. */
  lemma ResolveStep(tokens: seq<string>, i: nat, allowed: seq<string>, rs: seq<(string, string)>)
    requires i < |tokens| && ResolveTokens(tokens[..i], allowed) == Ok(rs)
    ensures var t := SortToken(tokens[i]);
      ResolveTokens(tokens[..i + 1], allowed) ==
        if t.None? then Ok(rs)
        else if t.value.0 !in allowed then Err(SortNotAllowed(t.value.0))
        else Ok(rs + [t.value])
  {
    assert tokens[..i + 1][..i] == tokens[..i];
  }

  /** `foreach ($allowed as &$v) $v = trim($v, '-')` */
  method StripAll(allowed: seq<string>) returns (r: seq<string>)
    ensures r == Stripped(allowed)
  {
    r := allowed;
    for i := 0 to |r|
      invariant |r| == |allowed|
      invariant forall j :: 0 <= j < i ==> r[j] == Trim(allowed[j], {'-'})
      invariant forall j :: i <= j < |r| ==> r[j] == allowed[j]
    {
      r := r[i := Trim(r[i], {'-'})];
    }
  }

  /** The head of getResolvedSorts' loop body: trim the token, skip it when blank, read `-` as descending. */
  method ParseSortToken(token: string) returns (t: Option<(string, string)>)
    ensures t == SortToken(token)
  {
    var value := Trim(token, Blank);
    if !StrTruthy(value) {
      return None;
    }
    var direction := "asc";
    if '-' in value {
      direction := "desc";
      value := Trim(value, {'-'});
    }
    return Some((value, direction));
  }

  /** getResolvedSorts() */
  method ResolvedSorts(allowed: seq<string>, sortInput: string) returns (r: Result<seq<(string, string)>, SortError>)
    ensures r == ResolvedSortsOf(allowed, sortInput)
  {
    var sort := sortInput;
    if !StrTruthy(sort) && |allowed| > 0 {
      sort := allowed[0];
      if |allowed| > 1 {
        sort := sort + "," + allowed[1];
      }
    }
    if !StrTruthy(sort) {
      return Ok([]);
    }
    var arr := Split(sort, ',');
    r := ResolveLoop(arr, allowed);
  }

  /** getResolvedSorts' loop over the comma-separated tokens, against the allowed columns. */
  method ResolveLoop(arr: seq<string>, allowed: seq<string>) returns (r: Result<seq<(string, string)>, SortError>)
    ensures r == ResolveTokens(arr, Stripped(allowed))
  {
    var rs: seq<(string, string)> := [];
    var current := allowed;
    for i := 0 to |arr|
      invariant ResolveTokens(arr[..i], Stripped(allowed)) == Ok(rs)
      invariant current == allowed || current == Stripped(allowed)
    {
      ResolveStep(arr, i, Stripped(allowed), rs);
      var t := ParseSortToken(arr[i]);
      if t.None? {
        continue;
      }
      var stripped := StripAll(current);
      StripAgain(allowed, current);
      current := stripped;
      if t.value.0 !in current {
        ResolveErrorSticks(arr, i + 1, Stripped(allowed));
        return Err(SortNotAllowed(t.value.0));
      }
      rs := rs + [t.value];
    }
    assert arr[..|arr|] == arr;
    return Ok(rs);
  }
}

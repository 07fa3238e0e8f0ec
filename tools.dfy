/**
 * Tools: dropping the `required` (or `nullable`) rule from every entry of a validation-rule map,
 * so that a form can be reused for partial updates. A rule is a `|`-joined string or a list of
 * rule tokens; anything else is left alone.
 */
module Tools {
  import opened Php

  /**
   * array_search($v, $list): the position of the first entry whose value is `v`. Only string
   * tokens are looked for, and a string equals a string here exactly when the characters agree.
   */
  function FirstIndexOf(entries: seq<(Key, Value)>, v: Value): (r: Option<nat>)
    ensures r.Some? ==> r.value < |entries| && entries[r.value].1 == v
    ensures r.Some? ==> forall j :: 0 <= j < r.value ==> entries[j].1 != v
    ensures r.None? ==> forall j :: 0 <= j < |entries| ==> entries[j].1 != v
    decreases |entries|
  {
    if entries == [] then None
    else if entries[0].1 == v then Some(0)
    else
      var r := FirstIndexOf(entries[1..], v);
      if r.None? then None else Some(r.value + 1)
  }

  /** unset($list[$key]) of the entry at position `i`: the others keep their keys and their order. */
  function Unset(entries: seq<(Key, Value)>, i: nat): (r: seq<(Key, Value)>)
    requires i < |entries|
    ensures |r| == |entries| - 1
    ensures forall j :: 0 <= j < i ==> r[j] == entries[j]
    ensures forall j :: i <= j < |r| ==> r[j] == entries[j + 1]
  {
    entries[..i] + entries[i + 1..]
  }

  /**
   * The string branch: `str_ireplace(['|word', 'word'], '', $rule)` replaces every `|word`, then
   * every `word` left, without regard to case; `trim($rule, '|')` then drops the bars at the ends.
   */
  function StripString(s: string, word: string): (r: string)
    ensures |r| == 0 || (r[0] != '|' && r[|r| - 1] != '|')
  {
    var replaced := ReplaceAllCI(ReplaceAllCI(s, "|" + word, ""), word, "");
    var r := Trim(replaced, {'|'});
    assert |r| > 0 ==> r[0] !in {'|'} && r[|r| - 1] !in {'|'};
    r
  }

  /**
   * One rule after the loop body: a list loses its first `word` token, or failing that its first
   * `Word` token; a string loses the word as above; anything else is unchanged.
   */
  function StripRule(rule: Value, word: string, cap: string): (r: Value)
    ensures !rule.Arr? && !rule.Str? ==> r == rule
    ensures rule.Arr? ==> r.Arr? && |rule.entries| - 1 <= |r.entries| <= |rule.entries|
    ensures rule.Str? ==> r.Str?
  {
    match rule
    case Arr(entries) =>
      var idx := FirstIndexOf(entries, Str(word));
      if idx.Some? then Arr(Unset(entries, idx.value))
      else
        var idx' := FirstIndexOf(entries, Str(cap));
        if idx'.Some? then Arr(Unset(entries, idx'.value)) else rule
    case Str(s) => Str(StripString(s, word))
    case _ => rule
  }

  /**
   * The shared body of removeRequiredForRules and removeNullableForRules: `foreach ($rules as
   * &$rule)` rewrites each rule in place; the keys, their order and the number of rules stay.
   */
  method RemoveWordForRules(rules: seq<(Key, Value)>, word: string, cap: string) returns (out: seq<(Key, Value)>)
    ensures |out| == |rules|
    ensures forall i :: 0 <= i < |rules| ==> out[i] == (rules[i].0, StripRule(rules[i].1, word, cap))
  {
    out := rules;
    for i := 0 to |out|
      invariant |out| == |rules|
      invariant forall j :: 0 <= j < i ==> out[j] == (rules[j].0, StripRule(rules[j].1, word, cap))
      invariant forall j :: i <= j < |out| ==> out[j] == rules[j]
    {
      var rule := out[i].1;
      if rule.Arr? {
        var index := FirstIndexOf(rule.entries, Str(word));
        if index.Some? {
          out := out[i := (out[i].0, Arr(Unset(rule.entries, index.value)))];
          continue;
        }
        index := FirstIndexOf(rule.entries, Str(cap));
        if index.Some? {
          out := out[i := (out[i].0, Arr(Unset(rule.entries, index.value)))];
          continue;
        }
      }
      if rule.Str? {
        var s := ReplaceAllCI(ReplaceAllCI(rule.s, "|" + word, ""), word, "");
        s := Trim(s, {'|'});
        out := out[i := (out[i].0, Str(s))];
      }
    }
  }

  /** removeRequiredForRules() */
  method RemoveRequiredForRules(rules: seq<(Key, Value)>) returns (out: seq<(Key, Value)>)
    ensures KeysOf(out) == KeysOf(rules)
    ensures forall i :: 0 <= i < |rules| ==> out[i].1 == StripRule(rules[i].1, "required", "Required")
  {
    out := RemoveWordForRules(rules, "required", "Required");
  }

  /** removeNullableForRules() */
  method RemoveNullableForRules(rules: seq<(Key, Value)>) returns (out: seq<(Key, Value)>)
    ensures KeysOf(out) == KeysOf(rules)
    ensures forall i :: 0 <= i < |rules| ==> out[i].1 == StripRule(rules[i].1, "nullable", "Nullable")
  {
    out := RemoveWordForRules(rules, "nullable", "Nullable");
  }

  // ---------------------------------------------------------------------------
  // What one rule becomes
  // ---------------------------------------------------------------------------

  /** A list holding the word loses exactly its first occurrence, and the capitalised form stays. */
  lemma ListLosesFirstWord(entries: seq<(Key, Value)>, word: string, cap: string, i: nat)
    requires i < |entries| && entries[i].1 == Str(word)
    requires forall j :: 0 <= j < i ==> entries[j].1 != Str(word)
    ensures StripRule(Arr(entries), word, cap) == Arr(entries[..i] + entries[i + 1..])
  {
  }

  /** The capitalised token goes only from a list that does not hold the word itself. */
  lemma ListLosesCapOnlyWithoutWord(entries: seq<(Key, Value)>, word: string, cap: string, i: nat)
    requires forall j :: 0 <= j < |entries| ==> entries[j].1 != Str(word)
    requires i < |entries| && entries[i].1 == Str(cap)
    requires forall j :: 0 <= j < i ==> entries[j].1 != Str(cap)
    ensures StripRule(Arr(entries), word, cap) == Arr(entries[..i] + entries[i + 1..])
  {
  }

  /** A list with neither token is unchanged. */
  lemma ListWithoutWordKept(entries: seq<(Key, Value)>, word: string, cap: string)
    requires forall j :: 0 <= j < |entries| ==> entries[j].1 != Str(word) && entries[j].1 != Str(cap)
    ensures StripRule(Arr(entries), word, cap) == Arr(entries)
  {
  }

  /** The keys left after unset() are keys of the list, and the removed one is not among them. */
  lemma UnsetKeys(entries: seq<(Key, Value)>, i: nat)
    requires DistinctKeys(entries) && i < |entries|
    ensures !HasKey(Unset(entries, i), entries[i].0)
    ensures forall k :: HasKey(Unset(entries, i), k) ==> HasKey(entries, k)
  {
    var r := Unset(entries, i);
    forall j | 0 <= j < |r| ensures KeysOf(r)[j] != entries[i].0 && KeysOf(r)[j] in KeysOf(entries) {
      var j' := if j < i then j else j + 1;
      assert r[j] == entries[j'];
      assert KeysOf(entries)[j'] == r[j].0;
    }
  }

  /** An entry other than the removed one is found under its key after unset(). */
  lemma UnsetGet(entries: seq<(Key, Value)>, i: nat, j: nat)
    requires DistinctKeys(entries) && i < |entries| && j < |entries| && j != i
    ensures Get(Unset(entries, i), entries[j].0) == Get(entries, entries[j].0)
  {
    var r := Unset(entries, i);
    var j' := if j < i then j else j - 1;
    assert r[j'] == entries[j];
    GetAt(entries, j);
    UnsetDistinct(entries, i);
    GetAt(r, j');
  }

  /** unset() keeps the keys of a list distinct. */
  lemma UnsetDistinct(entries: seq<(Key, Value)>, i: nat)
    requires DistinctKeys(entries) && i < |entries|
    ensures DistinctKeys(Unset(entries, i))
  {
    var r := Unset(entries, i);
    forall a, b | 0 <= a < b < |r| ensures r[a].0 != r[b].0 {
      var a' := if a < i then a else a + 1;
      var b' := if b < i then b else b + 1;
      assert r[a] == entries[a'] && r[b] == entries[b'];
    }
  }

  /**
   * The tokens of a list keep their keys: under distinct keys, every key other than the removed
   * one still maps to the same token, and the removed key is gone.
   */
  lemma UnsetKeepsOthers(entries: seq<(Key, Value)>, i: nat, k: Key)
    requires DistinctKeys(entries) && i < |entries|
    ensures k == entries[i].0 ==> Get(Unset(entries, i), k).None?
    ensures k != entries[i].0 ==> Get(Unset(entries, i), k) == Get(entries, k)
  {
    UnsetKeys(entries, i);
    if k != entries[i].0 && HasKey(entries, k) {
      var j :| 0 <= j < |entries| && KeysOf(entries)[j] == k;
      UnsetGet(entries, i, j);
    }
  }

  /** Does `pat` occur in `s` anywhere, ignoring ASCII case? */
  predicate OccursCI(s: string, pat: string)
  {
    exists i :: 0 <= i <= |s| && StartsWithCI(s[i..], pat)
  }

  /** str_ireplace changes nothing in a string where the pattern does not occur. */
  lemma {:induction false} ReplaceAbsent(s: string, pat: string, rep: string)
    requires !OccursCI(s, pat)
    ensures ReplaceAllCI(s, pat, rep) == s
    decreases |s|
  {
    if pat != [] && s != [] {
      assert s[0..] == s;
      assert !OccursCI(s[1..], pat) by {
        forall i | 0 <= i <= |s[1..]| ensures !StartsWithCI(s[1..][i..], pat) {
          assert s[1..][i..] == s[i + 1..];
        }
      }
      ReplaceAbsent(s[1..], pat, rep);
    }
  }

  /** A string starting with `|word` has `word` right after its first character. */
  lemma BarWordPrefix(t: string, word: string)
    ensures StartsWithCI(t, "|" + word) ==> StartsWithCI(t[1..], word)
  {
    var pat := "|" + word;
    if StartsWithCI(t, pat) {
      forall k | 0 <= k < |word| ensures LowerChar(t[1..][k]) == LowerChar(word[k]) {
        assert t[1..][k] == t[..|pat|][k + 1];
        assert pat[k + 1] == word[k];
        assert Lower(t[..|pat|])[k + 1] == Lower(pat)[k + 1];
      }
      assert Lower(t[1..][..|word|]) == Lower(word);
    }
  }

  /** Where the word does not occur, neither does the word with a bar in front. */
  lemma BarWordAbsent(s: string, word: string)
    requires !OccursCI(s, word)
    ensures !OccursCI(s, "|" + word)
  {
    forall i | 0 <= i <= |s| ensures !StartsWithCI(s[i..], "|" + word) {
      if i < |s| {
        BarWordPrefix(s[i..], word);
        assert s[i..][1..] == s[i + 1..];
      }
    }
  }

  /** A string rule without the word and without bars at its ends is unchanged. */
  lemma StringWithoutWordKept(s: string, word: string, cap: string)
    requires !OccursCI(s, word)
    requires s == [] || (s[0] != '|' && s[|s| - 1] != '|')
    ensures StripRule(Str(s), word, cap) == Str(s)
  {
    BarWordAbsent(s, word);
    ReplaceAbsent(s, "|" + word, "");
    ReplaceAbsent(s, word, "");
    assert TrimLeft(s, {'|'}) == s;
    assert TrimRight(s, {'|'}) == s;
  }

  // ---------------------------------------------------------------------------
  // The string branch on a `|`-joined rule
  // ---------------------------------------------------------------------------

  /** strtolower maps only the bar itself to a bar. */
  lemma LowerCharBar(c: char)
    ensures LowerChar(c) == '|' ==> c == '|'
  {
  }

  /** Text equal to a bar-free word ignoring case holds no bar either. */
  lemma NoBarCI(w: string, word: string)
    requires |w| == |word| && Lower(w) == Lower(word) && '|' !in word
    ensures '|' !in w
  {
    forall k | 0 <= k < |w| ensures w[k] != '|' {
      assert Lower(w)[k] == Lower(word)[k];
      LowerCharBar(word[k]);
    }
  }

  /** A bar-free pattern found at or before a bar ends before that bar. */
  lemma AcrossBar(a: string, b: string, p: string, i: nat)
    requires p != [] && '|' !in p && i <= |a|
    requires StartsWithCI((a + "|" + b)[i..], p)
    ensures i + |p| <= |a| && StartsWithCI(a[i..], p)
  {
    var s := a + "|" + b;
    if i + |p| > |a| {
      var k := |a| - i;
      assert s[i..][..|p|][k] == '|';
      assert Lower(s[i..][..|p|])[k] == Lower(p)[k];
      LowerCharBar(p[k]);
      assert false;
    }
    assert s[i..][..|p|] == a[i..][..|p|];
  }

  /** A bar-free pattern found in `a|b` is found in `a` or in `b`. */
  lemma OccursSplit(a: string, b: string, p: string)
    requires p != [] && '|' !in p
    requires !OccursCI(a, p) && !OccursCI(b, p)
    ensures !OccursCI(a + "|" + b, p)
  {
    var s := a + "|" + b;
    forall i | 0 <= i <= |s| ensures !StartsWithCI(s[i..], p) {
      if i <= |a| {
        if StartsWithCI(s[i..], p) {
          AcrossBar(a, b, p, i);
        }
      } else {
        assert s[i..] == b[i - |a| - 1..];
      }
    }
  }

  /** A bar-free word that is in none of the tokens is not in their `|`-join. */
  lemma {:induction false} OccursInJoin(ts: seq<string>, word: string)
    requires word != [] && '|' !in word
    requires forall t :: t in ts ==> !OccursCI(t, word)
    ensures !OccursCI(Join(ts, "|"), word)
    decreases |ts|
  {
    if |ts| > 1 {
      OccursInJoin(ts[1..], word);
      assert ts[0] in ts;
      OccursSplit(ts[0], Join(ts[1..], "|"), word);
    } else if |ts| == 1 {
      assert ts[0] in ts;
    } else {
      assert !StartsWithCI(""[0..], word);
    }
  }

  /** `|word` is found only at a bar, with the word right after it. */
  lemma BarMatchAt(s: string, word: string, i: nat)
    requires i <= |s|
    ensures StartsWithCI(s[i..], "|" + word) ==> i < |s| && s[i] == '|' && StartsWithCI(s[i + 1..], word)
  {
    var p := "|" + word;
    if StartsWithCI(s[i..], p) {
      assert Lower(s[i..][..|p|])[0] == Lower(p)[0];
      LowerCharBar(s[i]);
      BarWordPrefix(s[i..], word);
      assert s[i..][1..] == s[i + 1..];
    }
  }

  /** Without a bar there is no `|word`. */
  lemma NoBarNoBarWord(s: string, word: string)
    requires '|' !in s
    ensures !OccursCI(s, "|" + word)
  {
    forall i | 0 <= i <= |s| ensures !StartsWithCI(s[i..], "|" + word) {
      if StartsWithCI(s[i..], "|" + word) {
        BarMatchAt(s, word, i);
      }
    }
  }

  /** str_ireplace copies a head in which the pattern starts nowhere. */
  lemma {:induction false} ReplaceAfterPlainHead(a: string, b: string, p: string, rep: string)
    requires p != []
    requires forall i :: 0 <= i < |a| ==> !StartsWithCI((a + b)[i..], p)
    ensures ReplaceAllCI(a + b, p, rep) == a + ReplaceAllCI(b, p, rep)
    decreases |a|
  {
    if a != [] {
      var s := a + b;
      assert s[0..] == s;
      assert !StartsWithCI(s, p);
      forall i | 0 <= i < |a[1..]| ensures !StartsWithCI((a[1..] + b)[i..], p) {
        assert s[i + 1..] == (a[1..] + b)[i..];
      }
      ReplaceAfterPlainHead(a[1..], b, p, rep);
      assert s[1..] == a[1..] + b;
      assert s[0] == a[0];
      calc {
        ReplaceAllCI(s, p, rep);
        [a[0]] + ReplaceAllCI(a[1..] + b, p, rep);
        [a[0]] + (a[1..] + ReplaceAllCI(b, p, rep));
        { assert [a[0]] + a[1..] == a; }
        a + ReplaceAllCI(b, p, rep);
      }
    } else {
      assert a + b == b;
    }
  }

  /** str_ireplace replaces a match at the head and goes on after it. */
  lemma ReplaceHead(m: string, b: string, p: string, rep: string)
    requires p != [] && |m| == |p| && Lower(m) == Lower(p)
    ensures ReplaceAllCI(m + b, p, rep) == rep + ReplaceAllCI(b, p, rep)
  {
    assert (m + b)[..|p|] == m;
    assert (m + b)[|p|..] == b;
  }

  /**
   * The first replacement leaves a word-free head before a bar alone: every `|word` there would
   * put the word in the head.
   */
  lemma FirstPassHead(P: string, rest: string, word: string)
    requires word != [] && '|' !in word && !OccursCI(P, word)
    ensures ReplaceAllCI(P + "|" + rest, "|" + word, "") == P + ReplaceAllCI("|" + rest, "|" + word, "")
  {
    var s := P + ("|" + rest);
    assert s == P + "|" + rest;
    forall i | 0 <= i < |P| ensures !StartsWithCI(s[i..], "|" + word) {
      if StartsWithCI(s[i..], "|" + word) {
        BarMatchAt(s, word, i);
        AcrossBar(P, rest, word, i + 1);
      }
    }
    ReplaceAfterPlainHead(P, "|" + rest, "|" + word, "");
  }

  /** The `|`-join of non-empty, bar-free tokens is non-empty and has no bar at either end. */
  lemma {:induction false} JoinEnds(ts: seq<string>)
    requires ts != [] && forall t :: t in ts ==> t != [] && '|' !in t
    ensures var j := Join(ts, "|"); j != [] && j[0] != '|' && j[|j| - 1] != '|'
    decreases |ts|
  {
    assert ts[0] in ts;
    if |ts| > 1 {
      assert forall t :: t in ts[1..] ==> t in ts;
      JoinEnds(ts[1..]);
    }
  }

  /** trim($s, '|') keeps a string without bars at its ends. */
  lemma TrimKeeps(s: string)
    requires s == [] || (s[0] != '|' && s[|s| - 1] != '|')
    ensures Trim(s, {'|'}) == s
  {
    assert TrimLeft(s, {'|'}) == s;
    assert TrimRight(s, {'|'}) == s;
  }

  /** The conditions StripJoinedWord puts on the other tokens of the rule. */
  predicate PlainTokens(ts: seq<string>, word: string)
  {
    forall t :: t in ts ==> t != [] && '|' !in t && !OccursCI(t, word)
  }

  /**
   * A `|`-joined rule holding the word as one whole token (in any case), and nowhere else, loses
   * exactly that token: `required|max:20` becomes `max:20`, `max:20|Required|in:a,b` becomes
   * `max:20|in:a,b`.
   */
  lemma StripJoinedWord(pre: seq<string>, w: string, post: seq<string>, word: string)
    requires word != [] && '|' !in word
    requires |w| == |word| && Lower(w) == Lower(word)
    requires PlainTokens(pre, word) && PlainTokens(post, word)
    ensures StripString(Join(pre + [w] + post, "|"), word) == Join(pre + post, "|")
  {
    NoBarCI(w, word);
    if pre == [] && post == [] {
      StripLoneWord(w, word);
    } else if pre == [] {
      StripLeadingWord(w, post, word);
    } else if post == [] {
      StripTrailingWord(pre, w, word);
    } else {
      StripInnerWord(pre, w, post, word);
    }
  }

  lemma StripLoneWord(w: string, word: string)
    requires word != [] && '|' !in word && '|' !in w
    requires |w| == |word| && Lower(w) == Lower(word)
    ensures StripString(Join([] + [w] + [], "|"), word) == Join([] + [], "|")
  {
    assert [] + [w] + [] == [w];
    NoBarNoBarWord(w, word);
    ReplaceAbsent(w, "|" + word, "");
    ReplaceHead(w, "", word, "");
    assert w + "" == w;
  }

  lemma StripLeadingWord(w: string, post: seq<string>, word: string)
    requires word != [] && '|' !in word && '|' !in w
    requires |w| == |word| && Lower(w) == Lower(word)
    requires post != [] && PlainTokens(post, word)
    ensures StripString(Join([] + [w] + post, "|"), word) == Join([] + post, "|")
  {
    var Q := Join(post, "|");
    assert [] + [w] + post == [w] + post && [] + post == post;
    JoinAppend([w], post, "|");
    assert Join([w], "|") == w;
    PlainJoin(post, word);
    StripLeadingString(w, Q, word);
  }

  /** The `|`-join of plain tokens has no word and no bar at its ends. */
  lemma PlainJoin(ts: seq<string>, word: string)
    requires word != [] && '|' !in word && ts != [] && PlainTokens(ts, word)
    ensures var j := Join(ts, "|"); !OccursCI(j, word) && j != [] && j[0] != '|' && j[|j| - 1] != '|'
  {
    OccursInJoin(ts, word);
    JoinEnds(ts);
  }

  /** `w|Q` with a word-free Q loses `w|` when w is the word. */
  lemma StripLeadingString(w: string, Q: string, word: string)
    requires word != [] && '|' !in word && '|' !in w
    requires |w| == |word| && Lower(w) == Lower(word)
    requires !OccursCI(Q, word) && Q != [] && Q[0] != '|' && Q[|Q| - 1] != '|'
    ensures StripString(w + "|" + Q, word) == Q
  {
    var s := w + "|" + Q;
    assert ReplaceAllCI(s, "|" + word, "") == s by {
      NoBarWordAfterLone(w, Q, word);
      ReplaceAbsent(s, "|" + word, "");
    }
    assert ReplaceAllCI(s, word, "") == ['|'] + Q by {
      assert s == w + ("|" + Q);
      ReplaceHead(w, "|" + Q, word, "");
      BarThenPlain(Q, word);
      ReplaceAbsent("|" + Q, word, "");
    }
    TrimLead('|', Q, {'|'});
  }

  /** `w|Q` with a bar-free w and no word in Q holds no `|word`. */
  lemma NoBarWordAfterLone(w: string, Q: string, word: string)
    requires '|' !in w && !OccursCI(Q, word)
    ensures !OccursCI(w + "|" + Q, "|" + word)
  {
    var s := w + "|" + Q;
    forall i | 0 <= i <= |s| ensures !StartsWithCI(s[i..], "|" + word) {
      BarMatchAt(s, word, i);
      if i < |w| {
        assert s[i] == w[i];
      } else if i == |w| {
        assert s[i + 1..] == Q[0..];
      } else {
        BarWordAbsent(Q, word);
        assert s[i..] == Q[i - |w| - 1..];
      }
    }
  }

  /** A bar followed by a word-free text holds no word. */
  lemma BarThenPlain(Q: string, word: string)
    requires word != [] && '|' !in word && !OccursCI(Q, word)
    ensures !OccursCI("|" + Q, word)
  {
    assert !OccursCI("", word) by { assert !StartsWithCI(""[0..], word); }
    OccursSplit("", Q, word);
    assert "" + "|" + Q == "|" + Q;
  }

  lemma StripTrailingWord(pre: seq<string>, w: string, word: string)
    requires word != [] && '|' !in word && '|' !in w
    requires |w| == |word| && Lower(w) == Lower(word)
    requires pre != [] && PlainTokens(pre, word)
    ensures StripString(Join(pre + [w] + [], "|"), word) == Join(pre + [], "|")
  {
    var P := Join(pre, "|");
    assert pre + [w] + [] == pre + [w] && pre + [] == pre;
    JoinAppend(pre, [w], "|");
    OccursInJoin(pre, word);
    JoinEnds(pre);
    FirstPassHead(P, w, word);
    ReplaceHead("|" + w, "", "|" + word, "");
    assert ("|" + w) + "" == "|" + w;
    assert P + "" == P;
    ReplaceAbsent(P, word, "");
    TrimKeeps(P);
  }

  lemma StripInnerWord(pre: seq<string>, w: string, post: seq<string>, word: string)
    requires word != [] && '|' !in word && '|' !in w
    requires |w| == |word| && Lower(w) == Lower(word)
    requires pre != [] && post != [] && PlainTokens(pre, word) && PlainTokens(post, word)
    ensures StripString(Join(pre + [w] + post, "|"), word) == Join(pre + post, "|")
  {
    var P, Q := Join(pre, "|"), Join(post, "|");
    JoinAppend(pre, [w] + post, "|");
    JoinAppend([w], post, "|");
    JoinAppend(pre, post, "|");
    assert pre + [w] + post == pre + ([w] + post);
    OccursInJoin(pre, word);
    OccursInJoin(post, word);
    JoinEnds(pre);
    JoinEnds(post);
    StripInnerString(P, w, Q, word);
  }

  /** `P|w|Q` with word-free P and Q loses `|w` when w is the word. */
  lemma StripInnerString(P: string, w: string, Q: string, word: string)
    requires word != [] && '|' !in word && '|' !in w
    requires |w| == |word| && Lower(w) == Lower(word)
    requires !OccursCI(P, word) && !OccursCI(Q, word)
    requires P != [] && P[0] != '|' && Q != [] && Q[|Q| - 1] != '|'
    ensures StripString(P + "|" + (w + "|" + Q), word) == P + "|" + Q
  {
    InnerFirstPass(P, w, Q, word);
    OccursSplit(P, Q, word);
    ReplaceAbsent(P + "|" + Q, word, "");
    TrimKeeps(P + "|" + Q);
  }

  /** The first replacement on `P|w|Q` removes just `|w`. */
  lemma InnerFirstPass(P: string, w: string, Q: string, word: string)
    requires word != [] && '|' !in word
    requires |w| == |word| && Lower(w) == Lower(word)
    requires !OccursCI(P, word) && !OccursCI(Q, word)
    ensures ReplaceAllCI(P + "|" + (w + "|" + Q), "|" + word, "") == P + "|" + Q
  {
    FirstPassHead(P, w + "|" + Q, word);
    BarWordPass(w, Q, word);
    assert P + ("|" + Q) == P + "|" + Q;
  }

  /** The first replacement on `|w|Q` removes just the leading `|w`. */
  lemma BarWordPass(w: string, Q: string, word: string)
    requires word != [] && '|' !in word
    requires |w| == |word| && Lower(w) == Lower(word)
    requires !OccursCI(Q, word)
    ensures ReplaceAllCI("|" + (w + "|" + Q), "|" + word, "") == "|" + Q
  {
    var p1, tail := "|" + word, "|" + Q;
    assert "|" + (w + "|" + Q) == ("|" + w) + tail;
    ReplaceHead("|" + w, tail, p1, "");
    BarThenPlain(Q, word);
    BarWordAbsent(tail, word);
    ReplaceAbsent(tail, p1, "");
  }

  /**
   * Inside a token the word is removed as a substring too: a bar-free rule starting with the word
   * loses just that prefix, so `required_if:a` becomes `_if:a`.
   */
  lemma StripWordInsideToken(w: string, rest: string, word: string)
    requires word != [] && '|' !in word && '|' !in rest
    requires |w| == |word| && Lower(w) == Lower(word)
    requires !OccursCI(rest, word)
    ensures StripString(w + rest, word) == rest
  {
    NoBarCI(w, word);
    NoBarNoBarWord(w + rest, word);
    ReplaceAbsent(w + rest, "|" + word, "");
    ReplaceHead(w, rest, word, "");
    ReplaceAbsent(rest, word, "");
    assert "" + rest == rest;
    TrimKeeps(rest);
  }

  /**
   * The same after a bar: the bar and the word go, and the rest of that token is glued to the
   * tokens before it, so `max:20|required_with:x` becomes `max:20_with:x`.
   */
  lemma StripWordAfterBar(pre: seq<string>, w: string, rest: string, word: string)
    requires word != [] && '|' !in word && '|' !in rest
    requires |w| == |word| && Lower(w) == Lower(word)
    requires pre != [] && PlainTokens(pre, word)
    requires !OccursCI(Join(pre, "|") + rest, word)
    ensures StripString(Join(pre, "|") + "|" + w + rest, word) == Join(pre, "|") + rest
  {
    var P := Join(pre, "|");
    OccursInJoin(pre, word);
    JoinEnds(pre);
    FirstPassHead(P, w + rest, word);
    assert P + "|" + (w + rest) == P + "|" + w + rest;
    assert "|" + (w + rest) == ("|" + w) + rest;
    ReplaceHead("|" + w, rest, "|" + word, "");
    NoBarNoBarWord(rest, word);
    ReplaceAbsent(rest, "|" + word, "");
    assert "" + rest == rest;
    ReplaceAbsent(P + rest, word, "");
    TrimKeeps(P + rest);
  }
}

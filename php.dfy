/**
 * The PHP runtime the library is written against, reduced to what its core uses:
 * values, ordered arrays (association lists whose keys are integers or strings),
 * `array_merge`, `explode`/`implode`, `trim`, `str_replace`/`str_ireplace`,
 * ASCII case mapping and the `(int)` cast of a string.
 */
module Php {

  datatype Option<T> = None | Some(value: T)

  datatype Result<T, E> = Ok(value: T) | Err(error: E)

  /** A PHP array key. A decimal integer string used as a key becomes an integer (see KeyOf). */
  datatype Key = IntKey(i: int) | StrKey(s: string)

  /** A PHP value; an object is opaque: its class name and an identity. */
  datatype Value =
    | Null
    | Bool(b: bool)
    | Int(i: int)
    | Float(r: real)
    | Str(s: string)
    | Arr(entries: seq<(Key, Value)>)
    | Obj(cls: string, id: nat)

  // ---------------------------------------------------------------------------
  // Arrays
  // ---------------------------------------------------------------------------

  /** array_keys */
  function KeysOf<V>(a: seq<(Key, V)>): (ks: seq<Key>)
    ensures |ks| == |a|
    ensures forall i :: 0 <= i < |a| ==> ks[i] == a[i].0
  {
    if a == [] then [] else [a[0].0] + KeysOf(a[1..])
  }

  /** array_values */
  function ValuesOf<V>(a: seq<(Key, V)>): (vs: seq<V>)
    ensures |vs| == |a|
    ensures forall i :: 0 <= i < |a| ==> vs[i] == a[i].1
  {
    if a == [] then [] else [a[0].1] + ValuesOf(a[1..])
  }

  predicate HasKey<V>(a: seq<(Key, V)>, k: Key)
  {
    k in KeysOf(a)
  }

  lemma KeysOfCons<V>(a: seq<(Key, V)>)
    requires a != []
    ensures KeysOf(a) == [a[0].0] + KeysOf(a[1..])
  {
  }

  lemma KeysOfAppend<V>(a: seq<(Key, V)>, b: seq<(Key, V)>)
    ensures KeysOf(a + b) == KeysOf(a) + KeysOf(b)
  {
  }

  /** The keys of a prefix one entry longer end in that entry's key. */
  lemma KeysOfPrefixStep<V>(es: seq<(Key, V)>, n: nat)
    requires 0 < n <= |es|
    ensures KeysOf(es[..n]) == KeysOf(es[..n - 1]) + [es[n - 1].0]
  {
    assert es[..n] == es[..n - 1] + [es[n - 1]];
    KeysOfAppend(es[..n - 1], [es[n - 1]]);
  }

  /** An array whose entries all occur in another has only keys of the other. */
  lemma EntriesKeys<V>(r: seq<(Key, V)>, a: seq<(Key, V)>)
    requires forall e :: e in r ==> e in a
    ensures forall k :: HasKey(r, k) ==> HasKey(a, k)
  {
    forall k | HasKey(r, k) ensures HasKey(a, k) {
      var i :| 0 <= i < |r| && KeysOf(r)[i] == k;
      assert r[i] in a;
      var j :| 0 <= j < |a| && a[j] == r[i];
      assert KeysOf(a)[j] == k;
    }
  }

  /** Keys of a PHP array are pairwise distinct. */
  predicate DistinctKeys<V>(a: seq<(Key, V)>)
  {
    forall i, j :: 0 <= i < j < |a| ==> a[i].0 != a[j].0
  }

  /** `$a[$k]` when the key exists (the first entry with that key). */
  function Get<V>(a: seq<(Key, V)>, k: Key): (r: Option<V>)
    ensures r.Some? <==> HasKey(a, k)
    ensures r.Some? ==> (k, r.value) in a
  {
    if a == [] then None
    else if a[0].0 == k then Some(a[0].1)
    else
      KeysOfCons(a);
      Get(a[1..], k)
  }

  /** `$a[$k]` is the value of the first entry with that key. */
  lemma {:induction false} GetAt<V>(a: seq<(Key, V)>, i: int)
    requires 0 <= i < |a|
    requires forall j :: 0 <= j < i ==> a[j].0 != a[i].0
    ensures Get(a, a[i].0) == Some(a[i].1)
    decreases i
  {
    if i > 0 {
      GetAt(a[1..], i - 1);
    }
  }

  /** `$a[$k] = $v`: overwrite in place when the key exists, append otherwise. */
  function Put<V>(a: seq<(Key, V)>, k: Key, v: V): (r: seq<(Key, V)>)
    ensures !HasKey(a, k) ==> r == a + [(k, v)]
    ensures HasKey(a, k) ==> KeysOf(r) == KeysOf(a)
  {
    if a == [] then [(k, v)]
    else if a[0].0 == k then [(k, v)] + a[1..]
    else
      KeysOfCons(a);
      var rest := Put(a[1..], k, v);
      KeysOfCons([a[0]] + rest);
      assert ([a[0]] + rest)[1..] == rest;
      [a[0]] + rest
  }

  /** Writing a new key appends it to the keys. */
  lemma PutFreshKeys<V>(a: seq<(Key, V)>, k: Key, v: V)
    requires !HasKey(a, k)
    ensures KeysOf(Put(a, k, v)) == KeysOf(a) + [k]
  {
    KeysOfAppend(a, [(k, v)]);
  }

  lemma {:induction false} GetPut<V>(a: seq<(Key, V)>, k: Key, v: V, k': Key)
    ensures Get(Put(a, k, v), k') == if k' == k then Some(v) else Get(a, k')
  {
    if a != [] && a[0].0 != k {
      GetPut(a[1..], k, v, k');
      assert ([a[0]] + Put(a[1..], k, v))[1..] == Put(a[1..], k, v);
    } else if a != [] {
      assert ([(k, v)] + a[1..])[1..] == a[1..];
    }
  }

  /** Writing a key keeps the keys of an array distinct. */
  lemma PutDistinct<V>(a: seq<(Key, V)>, k: Key, v: V)
    requires DistinctKeys(a)
    ensures DistinctKeys(Put(a, k, v))
    ensures forall k' :: HasKey(Put(a, k, v), k') <==> HasKey(a, k') || k' == k
  {
    var r := Put(a, k, v);
    if HasKey(a, k) {
      assert forall i :: 0 <= i < |r| ==> r[i].0 == KeysOf(r)[i] == KeysOf(a)[i] == a[i].0;
    } else {
      KeysOfAppend(a, [(k, v)]);
    }
  }

  /** The key `$a[] = $v` would use: one past the largest integer key, at least 0. */
  function NextIndex<V>(a: seq<(Key, V)>): (n: int)
    ensures n >= 0
    ensures forall i :: 0 <= i < |a| && a[i].0.IntKey? ==> a[i].0.i < n
  {
    if a == [] then 0
    else
      var rest := NextIndex(a[1..]);
      assert forall i :: 1 <= i < |a| ==> a[i] == a[1..][i - 1];
      if a[0].0.IntKey? && a[0].0.i + 1 > rest then a[0].0.i + 1 else rest
  }

  /** A list: integer keys 0 .. n-1 in order. */
  function ListOf<V>(vs: seq<V>): (a: seq<(Key, V)>)
    ensures |a| == |vs|
    ensures forall i :: 0 <= i < |vs| ==> a[i] == (IntKey(i), vs[i])
  {
    seq(|vs|, i requires 0 <= i < |vs| => (IntKey(i), vs[i]))
  }

  /** Folds the entries of `b` into `acc` the way array_merge does. */
  function MergeInto<V>(acc: seq<(Key, V)>, b: seq<(Key, V)>): seq<(Key, V)>
    decreases |b|
  {
    if b == [] then acc
    else
      MergeInto(MergeStep(acc, b[0]), b[1..])
  }

  /** array_merge($a, $b): integer keys are renumbered and appended, a later string key overrides. */
  function ArrayMerge<V>(a: seq<(Key, V)>, b: seq<(Key, V)>): seq<(Key, V)>
  {
    MergeInto(MergeInto([], a), b)
  }

  lemma DistinctKeysTail<V>(b: seq<(Key, V)>)
    requires b != [] && DistinctKeys(b)
    ensures DistinctKeys(b[1..])
    ensures b[0].0 !in KeysOf(b[1..])
  {
    forall i, j | 0 <= i < j < |b[1..]| ensures b[1..][i].0 != b[1..][j].0 {
      assert b[1..][i] == b[i + 1] && b[1..][j] == b[j + 1];
    }
  }

  /** A write keeps every key, adds its own and no other. */
  lemma PutKeys<V>(a: seq<(Key, V)>, k: Key, v: V)
    ensures forall k' :: HasKey(a, k') ==> HasKey(Put(a, k, v), k')
    ensures HasKey(Put(a, k, v), k)
    ensures forall k' :: HasKey(Put(a, k, v), k') ==> HasKey(a, k') || k' == k
  {
    if !HasKey(a, k) {
      KeysOfAppend(a, [(k, v)]);
    }
  }

  /** A prefix of an array with distinct keys has distinct keys, none of them the next key. */
  lemma DistinctKeysPrefix<V>(a: seq<(Key, V)>, b: seq<(Key, V)>)
    requires DistinctKeys(a + b)
    ensures DistinctKeys(a)
    ensures b != [] ==> !HasKey(a, b[0].0)
  {
    forall i, j | 0 <= i < j < |a| ensures a[i].0 != a[j].0 {
      assert (a + b)[i] == a[i] && (a + b)[j] == a[j];
    }
    if b != [] {
      forall i | 0 <= i < |a| ensures KeysOf(a)[i] != b[0].0 {
        assert (a + b)[i] == a[i] && (a + b)[|a|] == b[0];
      }
    }
  }

  /**
   * array_merge of two one-entry arrays with distinct string keys keeps both entries, in order:
   * nothing is overridden and nothing is renumbered.
   */
  lemma ArrayMergePair<V>(e1: (Key, V), e2: (Key, V))
    requires e1.0.StrKey? && e2.0.StrKey? && e1.0 != e2.0
    ensures ArrayMerge([e1], [e2]) == [e1, e2]
  {
    assert MergeInto([], [e1]) == [e1] by {
      assert MergeStep([], e1) == [e1];
      assert [e1][1..] == [];
    }
    assert MergeStep([e1], e2) == [e1, e2] by {
      assert !HasKey([e1], e2.0) by {
        assert KeysOf([e1]) == [e1.0];
      }
    }
    calc {
      ArrayMerge([e1], [e2]);
      MergeInto(MergeInto([], [e1]), [e2]);
      MergeInto([e1], [e2]);
      { assert [e2][1..] == []; }
      MergeInto(MergeStep([e1], e2), []);
      [e1, e2];
    }
  }

  lemma {:induction false} GetAppend<V>(a: seq<(Key, V)>, e: (Key, V), k: Key)
    requires e.0 != k
    ensures Get(a + [e], k) == Get(a, k)
  {
    if a != [] {
      assert (a + [e])[1..] == a[1..] + [e];
      GetAppend(a[1..], e, k);
    }
  }

  /** One step of MergeInto, unfolded. */
  function MergeStep<V>(acc: seq<(Key, V)>, e: (Key, V)): seq<(Key, V)>
  {
    if e.0.IntKey? then acc + [(IntKey(NextIndex(acc)), e.1)] else Put(acc, e.0, e.1)
  }

  lemma MergeStepGet<V>(acc: seq<(Key, V)>, e: (Key, V), k: Key)
    requires k.StrKey?
    ensures Get(MergeStep(acc, e), k) == if e.0 == k then Some(e.1) else Get(acc, k)
  {
    if e.0.IntKey? {
      GetAppend(acc, (IntKey(NextIndex(acc)), e.1), k);
    } else {
      GetPut(acc, e.0, e.1, k);
    }
  }

  lemma {:induction false} MergeIntoKeepsOther<V>(acc: seq<(Key, V)>, b: seq<(Key, V)>, k: Key)
    requires k.StrKey? && !HasKey(b, k)
    ensures Get(MergeInto(acc, b), k) == Get(acc, k)
    decreases |b|
  {
    if b != [] {
      assert MergeInto(acc, b) == MergeInto(MergeStep(acc, b[0]), b[1..]);
      KeysOfCons(b);
      MergeStepGet(acc, b[0], k);
      MergeIntoKeepsOther(MergeStep(acc, b[0]), b[1..], k);
    }
  }

  lemma {:induction false} MergeIntoTakesLast<V>(acc: seq<(Key, V)>, b: seq<(Key, V)>, k: Key)
    requires k.StrKey? && DistinctKeys(b) && HasKey(b, k)
    ensures Get(MergeInto(acc, b), k) == Get(b, k)
    decreases |b|
  {
    assert MergeInto(acc, b) == MergeInto(MergeStep(acc, b[0]), b[1..]);
    KeysOfCons(b);
    DistinctKeysTail(b);
    MergeStepGet(acc, b[0], k);
    if b[0].0 == k {
      MergeIntoKeepsOther(MergeStep(acc, b[0]), b[1..], k);
    } else {
      MergeIntoTakesLast(MergeStep(acc, b[0]), b[1..], k);
    }
  }

  /** array_merge never produces a repeated key. */
  lemma {:induction false} MergeIntoDistinct<V>(acc: seq<(Key, V)>, b: seq<(Key, V)>)
    requires DistinctKeys(acc)
    ensures DistinctKeys(MergeInto(acc, b))
    decreases |b|
  {
    if b != [] {
      var next := MergeStep(acc, b[0]);
      if b[0].0.IntKey? {
        var e := (IntKey(NextIndex(acc)), b[0].1);
        assert next == acc + [e];
        forall i | 0 <= i < |acc| ensures acc[i].0 != e.0 {
          if acc[i].0.IntKey? {
            assert acc[i].0.i < NextIndex(acc);
          }
        }
      } else {
        PutDistinct(acc, b[0].0, b[0].1);
      }
      MergeIntoDistinct(next, b[1..]);
    }
  }

  lemma ArrayMergeDistinct<V>(a: seq<(Key, V)>, b: seq<(Key, V)>)
    ensures DistinctKeys(ArrayMerge(a, b))
  {
    MergeIntoDistinct([], a);
    MergeIntoDistinct(MergeInto([], a), b);
  }

  /**
   * array_merge: for a string key, the value of the second array wins when it has the key,
   * otherwise the first array's value is kept.
   */
  lemma ArrayMergeOverride<V>(a: seq<(Key, V)>, b: seq<(Key, V)>, k: Key)
    requires k.StrKey? && DistinctKeys(a) && DistinctKeys(b)
    ensures Get(ArrayMerge(a, b), k) == if HasKey(b, k) then Get(b, k) else Get(a, k)
  {
    if HasKey(b, k) {
      MergeIntoTakesLast(MergeInto([], a), b, k);
    } else {
      MergeIntoKeepsOther(MergeInto([], a), b, k);
      if HasKey(a, k) {
        MergeIntoTakesLast([], a, k);
      } else {
        MergeIntoKeepsOther([], a, k);
      }
    }
  }

  /** Writing the same entry twice is writing it once. */
  lemma {:induction false} PutTwice<V>(a: seq<(Key, V)>, k: Key, v: V)
    ensures Put(Put(a, k, v), k, v) == Put(a, k, v)
  {
    if a != [] && a[0].0 != k {
      var rest := Put(a[1..], k, v);
      PutTwice(a[1..], k, v);
      assert ([a[0]] + rest)[1..] == rest;
    } else if a != [] {
      assert ([(k, v)] + a[1..])[1..] == a[1..];
    }
  }

  /** A loop writing `$out[$k] = f($k, $v)` for each entry whose key passes `keep`, in order. */
  function PutEach<V, W>(keep: Key -> bool, f: ((Key, V)) -> W, es: seq<(Key, V)>): seq<(Key, W)>
    decreases |es|
  {
    if es == [] then []
    else
      var e := es[|es| - 1];
      var acc := PutEach(keep, f, es[..|es| - 1]);
      if keep(e.0) then Put(acc, e.0, f(e)) else acc
  }

  /** The entries that pass `keep`, mapped by `f`, in their order. */
  function MapFilter<V, W>(keep: Key -> bool, f: ((Key, V)) -> W, es: seq<(Key, V)>): (r: seq<(Key, W)>)
    ensures forall k :: HasKey(r, k) ==> HasKey(es, k) && keep(k)
    ensures forall i :: 0 <= i < |es| && keep(es[i].0) ==> (es[i].0, f(es[i])) in r
    decreases |es|
  {
    if es == [] then []
    else
      var e := es[|es| - 1];
      var init := es[..|es| - 1];
      var acc := MapFilter(keep, f, init);
      KeysOfAppend(init, [e]);
      assert init + [e] == es;
      if keep(e.0) then
        var r := acc + [(e.0, f(e))];
        KeysOfAppend(acc, [(e.0, f(e))]);
        assert forall k :: HasKey(r, k) ==> HasKey(acc, k) || k == e.0;
        assert HasKey(es, e.0);
        r
      else acc
  }

  /** MapFilter of a non-empty list: that of all but the last entry, then the last one if kept. */
  lemma MapFilterLast<V, W>(keep: Key -> bool, f: ((Key, V)) -> W, es: seq<(Key, V)>)
    requires es != []
    ensures var e := es[|es| - 1];
      MapFilter(keep, f, es) == MapFilter(keep, f, es[..|es| - 1]) + (if keep(e.0) then [(e.0, f(e))] else [])
  {
  }

  /** Over distinct keys every write is to a new key: the loop is the filtered, mapped list. */
  lemma {:induction false} PutEachIsMapFilter<V, W>(keep: Key -> bool, f: ((Key, V)) -> W, es: seq<(Key, V)>)
    requires DistinctKeys(es)
    ensures PutEach(keep, f, es) == MapFilter(keep, f, es)
    decreases |es|
  {
    if es != [] {
      var e := es[|es| - 1];
      var init := es[..|es| - 1];
      assert init + [e] == es;
      DistinctKeysPrefix(init, [e]);
      PutEachIsMapFilter(keep, f, init);
    }
  }

  /** A loop writing `$out[rename($k)] = $v` for each entry, in order. */
  function Rename<V>(rename: Key -> Key, es: seq<(Key, V)>): seq<(Key, V)>
    decreases |es|
  {
    if es == [] then []
    else Put(Rename(rename, es[..|es| - 1]), rename(es[|es| - 1].0), es[|es| - 1].1)
  }

  /** The rename loop over one more entry writes that entry under its new key. */
  lemma RenamePrefixStep<V>(rename: Key -> Key, es: seq<(Key, V)>, i: nat)
    requires i < |es|
    ensures Rename(rename, es[..i + 1]) == Put(Rename(rename, es[..i]), rename(es[i].0), es[i].1)
  {
    assert es[..i + 1][..i] == es[..i];
  }

  /** Every entry under its renamed key, in order. */
  function RenamedList<V>(rename: Key -> Key, es: seq<(Key, V)>): (r: seq<(Key, V)>)
    ensures |r| == |es|
    ensures forall i :: 0 <= i < |es| ==> r[i] == (rename(es[i].0), es[i].1)
    decreases |es|
  {
    if es == [] then []
    else RenamedList(rename, es[..|es| - 1]) + [(rename(es[|es| - 1].0), es[|es| - 1].1)]
  }

  /**
   * Renaming keys by a map that never sends two entries to the same key keeps every entry, its
   * value and the order.
   */
  lemma {:induction false} RenameKeepsEntries<V>(rename: Key -> Key, es: seq<(Key, V)>)
    requires forall i, j :: 0 <= i < j < |es| ==> rename(es[i].0) != rename(es[j].0)
    ensures Rename(rename, es) == RenamedList(rename, es)
    decreases |es|
  {
    if es != [] {
      var n := |es| - 1;
      var init := es[..n];
      assert forall i :: 0 <= i < n ==> init[i] == es[i];
      RenameKeepsEntries(rename, init);
      var prev := RenamedList(rename, init);
      assert !HasKey(prev, rename(es[n].0)) by {
        forall i | 0 <= i < |prev| ensures KeysOf(prev)[i] != rename(es[n].0) {
          assert prev[i].0 == rename(es[i].0);
        }
      }
    }
  }

  /** PHP truthiness of a string: "" and "0" are false. */
  predicate StrTruthy(s: string)
  {
    s != "" && s != "0"
  }

  /** PHP truthiness of a value (`if ($v)`, `!$v`, `empty($v)` negated). */
  predicate Truthy(v: Value)
  {
    match v
    case Null => false
    case Bool(b) => b
    case Int(i) => i != 0
    case Float(r) => r != 0.0
    case Str(s) => StrTruthy(s)
    case Arr(es) => es != []
    case Obj(_, _) => true
  }

  /** `(array)$v`: arrays unchanged, null empty, anything else a one-element list. */
  function AsArray(v: Value): (a: seq<(Key, Value)>)
    ensures v.Arr? ==> a == v.entries
    ensures v.Null? ==> a == []
    ensures !v.Arr? && !v.Null? ==> a == [(IntKey(0), v)]
  {
    match v
    case Arr(es) => es
    case Null => []
    case _ => [(IntKey(0), v)]
  }

  /** A key as a PHP value (what array_keys returns). */
  function KeyValue(k: Key): Value
  {
    match k
    case IntKey(i) => Int(i)
    case StrKey(s) => Str(s)
  }

  // ---------------------------------------------------------------------------
  // Strings
  // ---------------------------------------------------------------------------

  predicate IsDigit(c: char)
  {
    '0' <= c <= '9'
  }

  function DigitValue(c: char): nat
    requires IsDigit(c)
  {
    (c as int) - ('0' as int)
  }

  /** The value of a string of decimal digits. */
  function DigitsValue(s: string): nat
    requires AllDigits(s)
    decreases |s|
  {
    if s == [] then 0 else DigitsValue(s[..|s| - 1]) * 10 + DigitValue(s[|s| - 1])
  }

  /** Decimal rendering of a natural number. */
  function NatToString(n: nat): (s: string)
    ensures |s| >= 1
    ensures forall i :: 0 <= i < |s| ==> IsDigit(s[i])
    ensures DigitsValue(s) == n
    ensures |s| > 1 ==> s[0] != '0'
  {
    if n < 10 then [('0' as int + n) as char]
    else
      var s := NatToString(n / 10) + [('0' as int + n % 10) as char];
      assert s[..|s| - 1] == NatToString(n / 10);
      s
  }

  /** Decimal rendering of an integer, as PHP's string conversion does. */
  function IntToString(i: int): string
  {
    if i < 0 then "-" + NatToString(-i) else NatToString(i)
  }

  predicate AllDigits(s: string)
  {
    forall i :: 0 <= i < |s| ==> IsDigit(s[i])
  }

  /** `s` without a leading minus sign. */
  function Unsigned(s: string): string
  {
    if |s| > 0 && s[0] == '-' then s[1..] else s
  }

  /** Is `s` a canonical decimal integer (the strings PHP turns into integer keys)? */
  predicate IsIntString(s: string)
  {
    && |Unsigned(s)| >= 1
    && AllDigits(Unsigned(s))
    && (|Unsigned(s)| > 1 ==> Unsigned(s)[0] != '0')
    && (|s| > 0 && s[0] == '-' ==> Unsigned(s) != "0")
  }

  /** The key PHP uses for the string `s` in `$a[$s]`. */
  function KeyOf(s: string): (k: Key)
    ensures k.StrKey? ==> k.s == s
  {
    if !IsIntString(s) then StrKey(s)
    else if s[0] == '-' then IntKey(-(DigitsValue(Unsigned(s)) as int))
    else IntKey(DigitsValue(Unsigned(s)))
  }

  /** A string holding a character other than a digit or '-' (a dot, a bracket) is never an integer key. */
  lemma MarkedKeyIsString(s: string, c: char)
    requires c in s && !IsDigit(c) && c != '-'
    ensures KeyOf(s) == StrKey(s)
  {
    var u := Unsigned(s);
    var i :| 0 <= i < |s| && s[i] == c;
    if |s| > 0 && s[0] == '-' {
      assert u[i - 1] == c;
    } else {
      assert u[i] == c;
    }
  }

  /** A key converted to a string (`$parent . '.' . $key`). */
  function KeyStr(k: Key): string
  {
    match k
    case IntKey(i) => IntToString(i)
    case StrKey(s) => s
  }

  /** A key as PHP stores it: a string key never holds a canonical integer. */
  predicate NormalKey(k: Key)
  {
    k.StrKey? ==> !IsIntString(k.s)
  }

  /** The keys of a PHP array: pairwise distinct and normalised. */
  predicate NormalKeys<V>(a: seq<(Key, V)>)
  {
    DistinctKeys(a) && forall i :: 0 <= i < |a| ==> NormalKey(a[i].0)
  }

  /** Converting a stored key to a string and using it as a key again gives the same key. */
  lemma KeyRoundTrip(k: Key)
    requires NormalKey(k)
    ensures KeyOf(KeyStr(k)) == k
  {
    if k.IntKey? {
      var i := k.i;
      if i >= 0 {
        var s := NatToString(i);
        assert Unsigned(s) == s;
      } else {
        var u := NatToString(-i);
        var s := "-" + u;
        assert s[0] == '-' && s[1..] == u && Unsigned(s) == u;
        assert DigitsValue("0") == 0 && DigitsValue(u) == -i;
        assert IsIntString(s);
      }
    }
  }

  /** Distinct stored keys have distinct string forms. */
  lemma KeyStrInjective(k1: Key, k2: Key)
    requires NormalKey(k1) && NormalKey(k2) && KeyStr(k1) == KeyStr(k2)
    ensures k1 == k2
  {
    KeyRoundTrip(k1);
    KeyRoundTrip(k2);
  }

  /** strtolower, ASCII only. */
  function LowerChar(c: char): char
  {
    if 'A' <= c <= 'Z' then ((c as int) + 32) as char else c
  }

  function UpperChar(c: char): char
  {
    if 'a' <= c <= 'z' then ((c as int) - 32) as char else c
  }

  function Lower(s: string): (r: string)
    ensures |r| == |s| && forall i :: 0 <= i < |s| ==> r[i] == LowerChar(s[i])
  {
    seq(|s|, i requires 0 <= i < |s| => LowerChar(s[i]))
  }

  lemma LowerConcat(a: string, b: string)
    ensures Lower(a + b) == Lower(a) + Lower(b)
  {
    assert forall i :: 0 <= i < |a + b| ==> Lower(a + b)[i] == (Lower(a) + Lower(b))[i];
  }

  function Upper(s: string): (r: string)
    ensures |r| == |s| && forall i :: 0 <= i < |s| ==> r[i] == UpperChar(s[i])
  {
    seq(|s|, i requires 0 <= i < |s| => UpperChar(s[i]))
  }

  /** ucfirst */
  function UcFirst(s: string): (r: string)
    ensures |r| == |s|
    ensures |s| > 0 ==> r[0] == UpperChar(s[0]) && r[1..] == s[1..]
  {
    if s == [] then s else [UpperChar(s[0])] + s[1..]
  }

  /** The lists `f(x)` of the elements of `xs`, one after another. */
  function FlatMap<T, U>(xs: seq<T>, f: T -> seq<U>): seq<U>
    decreases |xs|
  {
    if xs == [] then [] else FlatMap(xs[..|xs| - 1], f) + f(xs[|xs| - 1])
  }

  lemma {:induction false} FlatMapConcat<T, U>(a: seq<T>, b: seq<T>, f: T -> seq<U>)
    ensures FlatMap(a + b, f) == FlatMap(a, f) + FlatMap(b, f)
    decreases |b|
  {
    if b == [] {
      assert a + b == a;
    } else {
      var b' := b[..|b| - 1];
      assert (a + b)[..|a + b| - 1] == a + b';
      FlatMapConcat(a, b', f);
    }
  }

  lemma FlatMapPrefix<T, U>(xs: seq<T>, i: int, f: T -> seq<U>)
    requires 0 <= i < |xs|
    ensures FlatMap(xs[..i + 1], f) == FlatMap(xs[..i], f) + f(xs[i])
  {
    assert xs[..i + 1][..i] == xs[..i];
  }

  lemma FlatMapOne<T, U>(x: T, f: T -> seq<U>)
    ensures FlatMap([x], f) == f(x)
  {
    assert [x][..0] == [];
  }

  /** Composing two character-wise rewrites is one character-wise rewrite. */
  lemma {:induction false} FlatMapCompose<T, U, W>(xs: seq<T>, f: T -> seq<U>, g: U -> seq<W>, h: T -> seq<W>)
    requires forall x :: h(x) == FlatMap(f(x), g)
    ensures FlatMap(FlatMap(xs, f), g) == FlatMap(xs, h)
    decreases |xs|
  {
    if xs != [] {
      var init := xs[..|xs| - 1];
      FlatMapCompose(init, f, g, h);
      FlatMapConcat(FlatMap(init, f), f(xs[|xs| - 1]), g);
    }
  }

  /** A rewrite that keeps every element of `xs` keeps `xs`. */
  lemma {:induction false} FlatMapKeeps<T>(xs: seq<T>, f: T -> seq<T>)
    requires forall i :: 0 <= i < |xs| ==> f(xs[i]) == [xs[i]]
    ensures FlatMap(xs, f) == xs
    decreases |xs|
  {
    if xs != [] {
      FlatMapKeeps(xs[..|xs| - 1], f);
    }
  }

  /** explode($sep, $s) for a one-character separator. */
  function Split(s: string, sep: char): (parts: seq<string>)
    ensures |parts| >= 1
    ensures forall i :: 0 <= i < |parts| ==> sep !in parts[i]
    decreases |s|
  {
    if s == [] then [""]
    else
      var rest := Split(s[1..], sep);
      if s[0] == sep then [""] + rest
      else [[s[0]] + rest[0]] + rest[1..]
  }

  /** implode($sep, $parts) */
  function Join(parts: seq<string>, sep: string): string
    decreases |parts|
  {
    if parts == [] then ""
    else if |parts| == 1 then parts[0]
    else parts[0] + sep + Join(parts[1..], sep)
  }

  /** implode of two parts is the first, the separator, then the second. */
  lemma JoinPair(a: string, b: string, sep: string)
    ensures Join([a, b], sep) == a + sep + b
  {
    assert [a, b][1..] == [b];
  }

  /** implode over two non-empty lists is the two implodes joined by the separator. */
  lemma {:induction false} JoinAppend(a: seq<string>, b: seq<string>, sep: string)
    requires a != [] && b != []
    ensures Join(a + b, sep) == Join(a, sep) + sep + Join(b, sep)
    decreases |a|
  {
    if |a| == 1 {
      assert (a + b)[1..] == b;
    } else {
      JoinAppend(a[1..], b, sep);
      assert (a + b)[1..] == a[1..] + b;
    }
  }

  /** implode of parts without a character, over a separator without it, does not hold it. */
  lemma {:induction false} JoinNoChar(parts: seq<string>, sep: string, c: char)
    requires c !in sep && forall i :: 0 <= i < |parts| ==> c !in parts[i]
    ensures c !in Join(parts, sep)
    decreases |parts|
  {
    if |parts| > 1 {
      JoinNoChar(parts[1..], sep, c);
    }
  }

  /** implode undoes explode. */
  lemma {:induction false} JoinSplit(s: string, sep: char)
    ensures Join(Split(s, sep), [sep]) == s
    decreases |s|
  {
    if s != [] {
      JoinSplit(s[1..], sep);
      var rest := Split(s[1..], sep);
      if s[0] == sep {
        assert Split(s, sep) == [""] + rest;
      } else {
        var parts := Split(s, sep);
        assert parts == [[s[0]] + rest[0]] + rest[1..];
        if |rest| == 1 {
          assert Join(parts, [sep]) == [s[0]] + rest[0];
        } else {
          assert parts[1..] == rest[1..];
          assert Join(rest, [sep]) == rest[0] + [sep] + Join(rest[1..], [sep]);
        }
      }
    }
  }

  /** explode undoes implode when no part holds the separator. */
  lemma {:induction false} SplitJoin(parts: seq<string>, sep: char)
    requires |parts| >= 1
    requires forall i :: 0 <= i < |parts| ==> sep !in parts[i]
    ensures Split(Join(parts, [sep]), sep) == parts
    decreases |parts|
  {
    if |parts| == 1 {
      SplitNoSep(parts[0], sep);
    } else {
      SplitJoin(parts[1..], sep);
      SplitConcat(parts[0], Join(parts[1..], [sep]), sep);
      assert Join(parts, [sep]) == parts[0] + [sep] + Join(parts[1..], [sep]);
    }
  }

  lemma {:induction false} SplitNoSep(s: string, sep: char)
    requires sep !in s
    ensures Split(s, sep) == [s]
    decreases |s|
  {
    if s != [] {
      SplitNoSep(s[1..], sep);
      assert [s[0]] + s[1..] == s;
    }
  }

  lemma {:induction false} SplitConcat(a: string, b: string, sep: char)
    requires sep !in a
    ensures Split(a + [sep] + b, sep) == [a] + Split(b, sep)
    decreases |a|
  {
    if a == [] {
      assert a + [sep] + b == [sep] + b;
      assert ([sep] + b)[1..] == b;
    } else {
      assert (a + [sep] + b)[1..] == a[1..] + [sep] + b;
      SplitConcat(a[1..], b, sep);
      assert [a[0]] + a[1..] == a;
    }
  }

  /** A string holding the separator explodes into at least two pieces. */
  lemma {:induction false} SplitHasSep(s: string, sep: char)
    requires sep in s
    ensures |Split(s, sep)| >= 2
    decreases |s|
  {
    if s[0] != sep {
      assert sep in s[1..];
      SplitHasSep(s[1..], sep);
    }
  }

  /** current(explode($sep, $s, 2)): the text before the first separator. */
  function BeforeFirst(s: string, sep: char): (r: string)
    ensures r <= s && sep !in r
    ensures |r| < |s| ==> s[|r|] == sep
  {
    if s == [] || s[0] == sep then "" else [s[0]] + BeforeFirst(s[1..], sep)
  }

  lemma {:induction false} BeforeFirstIsFirstPart(s: string, sep: char)
    ensures BeforeFirst(s, sep) == Split(s, sep)[0]
    decreases |s|
  {
    if s != [] && s[0] != sep {
      BeforeFirstIsFirstPart(s[1..], sep);
    }
  }

  lemma {:induction false} BeforeFirstConcat(a: string, b: string, sep: char)
    requires sep !in a
    ensures BeforeFirst(a + [sep] + b, sep) == a
    decreases |a|
  {
    if a == [] {
      assert (a + [sep] + b)[0] == sep;
    } else {
      assert (a + [sep] + b)[1..] == a[1..] + [sep] + b;
      BeforeFirstConcat(a[1..], b, sep);
      assert [a[0]] + a[1..] == a;
    }
  }

  function TrimLeft(s: string, cs: set<char>): (r: string)
    ensures |r| <= |s| && r == s[|s| - |r|..]
    ensures |r| > 0 ==> r[0] !in cs
    decreases |s|
  {
    if s != [] && s[0] in cs then TrimLeft(s[1..], cs) else s
  }

  function TrimRight(s: string, cs: set<char>): (r: string)
    ensures r <= s
    ensures |r| > 0 ==> r[|r| - 1] !in cs
    decreases |s|
  {
    if s != [] && s[|s| - 1] in cs then TrimRight(s[..|s| - 1], cs) else s
  }

  /** trim($s, $chars) */
  function Trim(s: string, cs: set<char>): (r: string)
    ensures |r| <= |s|
    ensures |r| > 0 ==> r[0] !in cs && r[|r| - 1] !in cs
  {
    TrimRight(TrimLeft(s, cs), cs)
  }

  /** Trimming a string that starts with a trimmed character makes it shorter. */
  lemma TrimShorter(s: string, cs: set<char>)
    requires s != [] && s[0] in cs
    ensures |Trim(s, cs)| < |s|
  {
    assert TrimLeft(s, cs) == TrimLeft(s[1..], cs);
  }

  /** trim() is idempotent. */
  lemma TrimTwice(s: string, cs: set<char>)
    ensures Trim(Trim(s, cs), cs) == Trim(s, cs)
  {
    var t := Trim(s, cs);
    assert TrimLeft(t, cs) == t;
    assert TrimRight(t, cs) == t;
  }

  /** trim() leaves alone a string whose ends are not trimmed characters, and drops one leading such character. */
  lemma TrimLead(c: char, x: string, cs: set<char>)
    requires c in cs && x != [] && x[0] !in cs && x[|x| - 1] !in cs
    ensures Trim([c] + x, cs) == x && Trim(x, cs) == x
  {
    var cx := [c] + x;
    assert cx[1..] == x;
    assert TrimLeft(x, cs) == x;
    assert TrimLeft(cx, cs) == x;
    assert TrimRight(x, cs) == x;
  }

  /** The characters trim() removes by default. */
  const Blank: set<char> := {' ', '\t', '\n', '\r', '\0', '\U{B}'}

  /** Does `pat` occur at the start of `s`, ignoring ASCII case? */
  predicate StartsWithCI(s: string, pat: string)
  {
    |pat| <= |s| && Lower(s[..|pat|]) == Lower(pat)
  }

  /** str_replace($pat, $rep, $s) */
  function ReplaceAll(s: string, pat: string, rep: string): string
    decreases |s|
  {
    if pat == [] || s == [] then s
    else if pat <= s then rep + ReplaceAll(s[|pat|..], pat, rep)
    else [s[0]] + ReplaceAll(s[1..], pat, rep)
  }

  /** str_ireplace($pat, $rep, $s): occurrences matched without regard to ASCII case. */
  function ReplaceAllCI(s: string, pat: string, rep: string): string
    decreases |s|
  {
    if pat == [] || s == [] then s
    else if StartsWithCI(s, pat) then rep + ReplaceAllCI(s[|pat|..], pat, rep)
    else [s[0]] + ReplaceAllCI(s[1..], pat, rep)
  }

  /** Replacing a character by text that does not hold it leaves no occurrence of it. */
  lemma {:induction false} ReplaceAllRemoves(s: string, c: char, rep: string, d: char)
    requires d !in rep && (d != c ==> d !in s)
    ensures d !in ReplaceAll(s, [c], rep)
    decreases |s|
  {
    if s != [] {
      ReplaceAllRemoves(s[1..], c, rep, d);
      assert [c] <= s <==> s[0] == c;
    }
  }

  /** str_replace of one character rewrites `s` character by character. */
  lemma {:induction false} ReplaceCharFlatMap(s: string, c: char, rep: string, f: char -> string)
    requires forall x :: f(x) == if x == c then rep else [x]
    ensures ReplaceAll(s, [c], rep) == FlatMap(s, f)
    decreases |s|
  {
    if s != [] {
      ReplaceCharFlatMap(s[1..], c, rep, f);
      assert [c] <= s <==> s[0] == c;
      assert s == [s[0]] + s[1..];
      FlatMapConcat([s[0]], s[1..], f);
      FlatMapOne(s[0], f);
    }
  }

  /** The whitespace a PHP numeric string may start with. */
  const NumericLead: set<char> := {' ', '\t', '\n', '\r', '\U{B}', '\U{C}'}

  /** The leading run of decimal digits of `s`. */
  function LeadingDigits(s: string): (r: string)
    ensures r <= s
    ensures forall i :: 0 <= i < |r| ==> IsDigit(r[i])
    ensures |r| < |s| ==> !IsDigit(s[|r|])
  {
    if s != [] && IsDigit(s[0]) then [s[0]] + LeadingDigits(s[1..]) else ""
  }

  /**
   * `(int)$s`: leading whitespace, an optional sign, then the leading digits; 0 when there are none.
   */
  function IntCast(s: string): int
  {
    var t := TrimLeft(s, NumericLead);
    if |t| > 0 && t[0] == '-' then -(DigitsValue(LeadingDigits(t[1..])) as int)
    else if |t| > 0 && t[0] == '+' then DigitsValue(LeadingDigits(t[1..]))
    else DigitsValue(LeadingDigits(t))
  }

  /** `(int)` of a canonical decimal rendering gives the number back. */
  lemma NatCastRoundTrip(n: nat)
    ensures IntCast(NatToString(n)) == n
  {
    var s := NatToString(n);
    assert s[0] !in NumericLead;
    assert TrimLeft(s, NumericLead) == s;
    assert s[0] != '-' && s[0] != '+';
    DigitsAreLeading(s);
    assert IntCast(s) == DigitsValue(LeadingDigits(s));
  }

  lemma {:induction false} DigitsAreLeading(s: string)
    requires forall i :: 0 <= i < |s| ==> IsDigit(s[i])
    ensures LeadingDigits(s) == s
    decreases |s|
  {
    if s != [] {
      DigitsAreLeading(s[1..]);
      assert [s[0]] + s[1..] == s;
    }
  }
}

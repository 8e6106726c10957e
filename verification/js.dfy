/**
 * JavaScript values as the cache adapter and the pages handle them: JSON-like
 * data, truthiness, property keys and the order in which an object enumerates
 * its own properties, plus the few string operations the pages use.
 */
module Js {

  datatype Option<+T> = None | Some(value: T)

  /** The outcome of evaluating an expression that may throw. */
  datatype Outcome<+T> = Ok(value: T) | Thrown

  /** What an awaited HTTP request yields: a rejected promise or a response body. */
  datatype Response = Failed | Received(body: Json)

  /**
   * A JSON-like JavaScript value. Numbers are integers (millisecond times,
   * counts). An object lists its own properties in the order JavaScript
   * enumerates them (see Canonical).
   */
  datatype Json =
    | JNull
    | JBool(b: bool)
    | JNum(n: int)
    | JStr(s: string)
    | JArr(items: seq<Json>)
    | JObj(fields: seq<(string, Json)>)

  /** `!!v`: null, false, 0 and the empty string are falsy, everything else is truthy. */
  predicate Truthy(v: Json) {
    match v
    case JNull => false
    case JBool(b) => b
    case JNum(n) => n != 0
    case JStr(s) => s != ""
    case _ => true
  }

  // ---------------------------------------------------------------------------
  // Decimal numerals: array indices as property keys, numbers in template literals

  predicate IsDigit(c: char) {
    '0' <= c <= '9'
  }

  predicate AllDigits(s: string) {
    forall i :: 0 <= i < |s| ==> IsDigit(s[i])
  }

  function DigitChar(d: nat): (c: char)
    requires d < 10
    ensures IsDigit(c)
  {
    ('0' as int + d) as char
  }

  /** `String(n)` for a natural number. */
  function Decimal(n: nat): (s: string)
    ensures |s| > 0 && AllDigits(s)
    ensures s[0] == '0' ==> n == 0
    decreases n
  {
    if n < 10 then [DigitChar(n)] else Decimal(n / 10) + [DigitChar(n % 10)]
  }

  /** The number a string of digits denotes. */
  function DecimalValue(s: string): nat
    requires AllDigits(s)
    decreases |s|
  {
    if s == [] then 0
    else DecimalValue(s[..|s| - 1]) * 10 + (s[|s| - 1] as int - '0' as int)
  }

  lemma {:induction false} DecimalValueOfDecimal(n: nat)
    ensures DecimalValue(Decimal(n)) == n
    decreases n
  {
    if n >= 10 {
      var s := Decimal(n);
      assert s[..|s| - 1] == Decimal(n / 10);
      DecimalValueOfDecimal(n / 10);
    }
  }

  /** One more than the largest array index: array indices are below 2^32 - 1. */
  const MAX_INDEX: nat := 4294967295

  /**
   * The array index a property key denotes, if it is one: the canonical
   * decimal numeral of a number below MAX_INDEX.
   */
  function IndexKey(k: string): Option<nat> {
    if |k| > 0 && AllDigits(k) && (k[0] != '0' || |k| == 1) && DecimalValue(k) < MAX_INDEX
    then Some(DecimalValue(k))
    else None
  }

  lemma IndexKeyOfDecimal(i: nat)
    requires i < MAX_INDEX
    ensures IndexKey(Decimal(i)) == Some(i)
  {
    DecimalValueOfDecimal(i);
  }

  /** A key that starts with an underscore: the pages' marker for bookkeeping fields. */
  predicate IsMarked(k: string) {
    |k| > 0 && k[0] == '_'
  }

  lemma IndexKeysAreNotMarked(i: nat)
    ensures !IsMarked(Decimal(i))
  {
  }

  // ---------------------------------------------------------------------------
  // Own properties

  /** The entries `Object.entries` gives for an array: keys "0".."n-1" with the elements. */
  function IndexEntries(xs: seq<Json>): (es: seq<(string, Json)>)
    ensures |es| == |xs|
    ensures forall i :: 0 <= i < |xs| ==> es[i] == (Decimal(i), xs[i])
    decreases |xs|
  {
    if xs == [] then []
    else IndexEntries(xs[..|xs| - 1]) + [(Decimal(|xs| - 1), xs[|xs| - 1])]
  }

  /** The one-character strings a string spreads into. */
  function Chars(s: string): (cs: seq<Json>)
    ensures |cs| == |s|
    ensures forall i :: 0 <= i < |s| ==> cs[i] == JStr([s[i]])
  {
    seq(|s|, i requires 0 <= i < |s| => JStr([s[i]]))
  }

  /**
   * The own enumerable properties of a value, in enumeration order: what
   * `Object.entries(v)` returns and what `{...v}` copies. A string has one
   * per character; null, booleans and numbers have none.
   */
  function OwnEntries(v: Json): seq<(string, Json)> {
    match v
    case JObj(fs) => fs
    case JArr(xs) => IndexEntries(xs)
    case JStr(s) => IndexEntries(Chars(s))
    case _ => []
  }

  /** The values of a list of entries, in order (`Object.values`). */
  function Values(es: seq<(string, Json)>): (vs: seq<Json>)
    ensures |vs| == |es|
    ensures forall i :: 0 <= i < |es| ==> vs[i] == es[i].1
  {
    seq(|es|, i requires 0 <= i < |es| => es[i].1)
  }

  /** The keys of a list of entries, in order. */
  function Keys(fs: seq<(string, Json)>): (ks: seq<string>)
    ensures |ks| == |fs|
    ensures forall i :: 0 <= i < |fs| ==> ks[i] == fs[i].0
  {
    seq(|fs|, i requires 0 <= i < |fs| => fs[i].0)
  }

  predicate HasKey(fs: seq<(string, Json)>, k: string) {
    k in Keys(fs)
  }

  /**
   * Defining property `k` with value `v` in an object literal: an existing
   * property keeps its place and takes the new value, a new one goes last.
   */
  function DefineProp(fs: seq<(string, Json)>, k: string, v: Json): seq<(string, Json)>
    decreases |fs|
  {
    if fs == [] then [(k, v)]
    else if fs[0].0 == k then [(k, v)] + fs[1..]
    else [fs[0]] + DefineProp(fs[1..], k, v)
  }

  /** Defining a key the entries do not hold appends it. */
  lemma {:induction false} DefinePropAppends(fs: seq<(string, Json)>, k: string, v: Json)
    requires !HasKey(fs, k)
    ensures DefineProp(fs, k, v) == fs + [(k, v)]
    decreases |fs|
  {
    if fs != [] {
      assert Keys(fs)[0] != k;
      assert !HasKey(fs[1..], k) by {
        assert forall i :: 0 <= i < |fs| - 1 ==> Keys(fs[1..])[i] == Keys(fs)[i + 1];
      }
      DefinePropAppends(fs[1..], k, v);
      assert [fs[0]] + (fs[1..] + [(k, v)]) == fs + [(k, v)];
    }
  }

  /** Defining a key the entries already hold replaces its value in place. */
  lemma {:induction false} DefinePropReplaces(fs: seq<(string, Json)>, k: string, v: Json)
    requires HasKey(fs, k)
    ensures Keys(DefineProp(fs, k, v)) == Keys(fs)
    decreases |fs|
  {
    var r := DefineProp(fs, k, v);
    if fs[0].0 == k {
      assert r == [(k, v)] + fs[1..];
      assert forall i :: 0 <= i < |fs| ==> r[i].0 == fs[i].0;
    } else {
      assert HasKey(fs[1..], k) by {
        var i :| 0 <= i < |fs| && Keys(fs)[i] == k;
        assert Keys(fs[1..])[i - 1] == k;
      }
      var rest := DefineProp(fs[1..], k, v);
      DefinePropReplaces(fs[1..], k, v);
      assert r == [fs[0]] + rest;
      assert |rest| == |Keys(rest)| == |fs| - 1;
      forall i | 0 < i < |fs|
        ensures r[i].0 == fs[i].0
      {
        assert r[i] == rest[i - 1] && Keys(rest)[i - 1] == Keys(fs[1..])[i - 1];
      }
    }
    assert forall i :: 0 <= i < |fs| ==> Keys(r)[i] == Keys(fs)[i];
  }

  /** Defining a key keeps the key order, and a new key goes last. */
  lemma DefinePropKeys(fs: seq<(string, Json)>, k: string, v: Json)
    ensures Keys(DefineProp(fs, k, v)) == if HasKey(fs, k) then Keys(fs) else Keys(fs) + [k]
  {
    if HasKey(fs, k) {
      DefinePropReplaces(fs, k, v);
    } else {
      DefinePropAppends(fs, k, v);
    }
  }

  /** After defining `k`, reading `k` gives the new value and reading any other key is unaffected. */
  lemma {:induction false} FindDefined(fs: seq<(string, Json)>, k: string, v: Json, name: string)
    ensures FindProp(DefineProp(fs, k, v), name) == if name == k then Some(v) else FindProp(fs, name)
    decreases |fs|
  {
    if fs != [] && fs[0].0 != k {
      var r := DefineProp(fs, k, v);
      assert r[0] == fs[0] && r[1..] == DefineProp(fs[1..], k, v);
      FindDefined(fs[1..], k, v, name);
    } else if fs != [] {
      assert DefineProp(fs, k, v)[1..] == fs[1..];
    }
  }

  /** Two new, different keys defined one after the other land at the end in that order. */
  lemma DefineTwoNew(fs: seq<(string, Json)>, k1: string, v1: Json, k2: string, v2: Json)
    requires k1 != k2
    requires forall i :: 0 <= i < |fs| ==> fs[i].0 != k1 && fs[i].0 != k2
    ensures DefineProp(DefineProp(fs, k1, v1), k2, v2) == fs + [(k1, v1), (k2, v2)]
  {
    var fs' := fs + [(k1, v1)];
    assert !HasKey(fs, k1) by {
      assert forall i :: 0 <= i < |fs| ==> Keys(fs)[i] != k1;
    }
    DefinePropAppends(fs, k1, v1);
    assert !HasKey(fs', k2) by {
      assert forall i :: 0 <= i < |fs'| ==> Keys(fs')[i] != k2;
    }
    DefinePropAppends(fs', k2, v2);
    assert fs' + [(k2, v2)] == fs + [(k1, v1), (k2, v2)];
  }

  /**
   * The order in which JavaScript enumerates an ordinary object's own string
   * keys: no key twice, array-index keys first in ascending numeric order,
   * then the other keys (in creation order, which a list cannot contradict).
   */
  ghost predicate Canonical(fs: seq<(string, Json)>) {
    CanonicalKeys(Keys(fs))
  }

  ghost predicate CanonicalKeys(ks: seq<string>) {
    && (forall i, j :: 0 <= i < j < |ks| ==> ks[i] != ks[j])
    && (forall i, j :: 0 <= i < j < |ks| && IndexKey(ks[j]).Some? ==>
          IndexKey(ks[i]).Some? && IndexKey(ks[i]).value < IndexKey(ks[j]).value)
  }

  lemma IndexEntriesCanonical(xs: seq<Json>)
    requires |xs| <= MAX_INDEX
    ensures Canonical(IndexEntries(xs))
  {
    var ks := Keys(IndexEntries(xs));
    forall i | 0 <= i < |ks|
      ensures IndexKey(ks[i]) == Some(i)
    {
      IndexKeyOfDecimal(i);
    }
  }

  lemma DefinePropCanonical(fs: seq<(string, Json)>, k: string, v: Json)
    requires Canonical(fs)
    requires IndexKey(k).None?
    ensures Canonical(DefineProp(fs, k, v))
  {
    DefinePropKeys(fs, k, v);
    if !HasKey(fs, k) {
      AppendPlainKey(Keys(fs), k);
    }
  }

  lemma AppendPlainKey(ks: seq<string>, k: string)
    requires CanonicalKeys(ks)
    requires k !in ks && IndexKey(k).None?
    ensures CanonicalKeys(ks + [k])
  {
    var ks' := ks + [k];
    forall i, j | 0 <= i < j < |ks'|
      ensures ks'[i] != ks'[j]
      ensures IndexKey(ks'[j]).Some? ==> IndexKey(ks'[i]).Some? && IndexKey(ks'[i]).value < IndexKey(ks'[j]).value
    {
      if j == |ks| {
        assert ks'[i] == ks[i];
      } else {
        assert ks'[i] == ks[i] && ks'[j] == ks[j];
      }
    }
  }

  /** The `{...v}` spread: the own entries of any value form a canonical list. */
  lemma OwnEntriesCanonical(v: Json)
    requires v.JObj? ==> Canonical(v.fields)
    requires v.JArr? ==> |v.items| <= MAX_INDEX
    requires v.JStr? ==> |v.s| <= MAX_INDEX
    ensures Canonical(OwnEntries(v))
  {
    match v
    case JObj(fs) =>
    case JArr(xs) => IndexEntriesCanonical(xs);
    case JStr(s) => IndexEntriesCanonical(Chars(s));
    case _ =>
  }

  /** `v.name` for a property name that is neither an array index nor `length`. */
  function Prop(v: Json, name: string): (r: Outcome<Option<Json>>)
    ensures r.Thrown? <==> v.JNull?
  {
    match v
    case JNull => Thrown
    case JObj(fs) => Ok(FindProp(fs, name))
    case _ => Ok(None)
  }

  function FindProp(fs: seq<(string, Json)>, name: string): (r: Option<Json>)
    ensures r.Some? <==> HasKey(fs, name)
    decreases |fs|
  {
    if fs == [] then None
    else if fs[0].0 == name then Some(fs[0].1)
    else FindProp(fs[1..], name)
  }

  // ---------------------------------------------------------------------------
  // Sequences

  /** No value occurs twice. */
  predicate Distinct(s: seq<string>) {
    forall i, j :: 0 <= i < j < |s| ==> s[i] != s[j]
  }

  /** A list without repeats holds each value at most once. */
  lemma {:induction false} DistinctCount(s: seq<string>, x: string)
    requires Distinct(s)
    ensures multiset(s)[x] <= 1
    decreases |s|
  {
    if s != [] {
      assert s == [s[0]] + s[1..];
      assert Distinct(s[1..]) by {
        forall i, j | 0 <= i < j < |s[1..]|
          ensures s[1..][i] != s[1..][j]
        {
          assert s[1..][i] == s[i + 1] && s[1..][j] == s[j + 1];
        }
      }
      DistinctCount(s[1..], x);
      if x == s[0] {
        assert x !in s[1..] by {
          forall i | 0 <= i < |s[1..]|
            ensures s[1..][i] != x
          {
            assert s[1..][i] == s[i + 1];
          }
        }
      }
    }
  }

  /** Reordering a list without repeats gives a list without repeats. */
  lemma DistinctPermutation(s: seq<string>, t: seq<string>)
    requires Distinct(s) && multiset(t) == multiset(s)
    ensures Distinct(t)
  {
    forall i, j | 0 <= i < j < |t|
      ensures t[i] != t[j]
    {
      if t[i] == t[j] {
        assert t == t[..j] + t[j..];
        assert t[i] in t[..j] && t[j] in t[j..];
        assert multiset(t)[t[i]] >= 2;
        DistinctCount(s, t[i]);
        assert false;
      }
    }
  }

  /** `s.filter(keep)`: each value kept as often as it occurs, the others dropped, in order. */
  function Filter<T(!new)>(s: seq<T>, keep: T -> bool): (r: seq<T>)
    ensures forall x :: multiset(r)[x] == if keep(x) then multiset(s)[x] else 0
    ensures forall x :: x in r <==> x in s && keep(x)
    decreases |s|
  {
    if s == [] then []
    else
      assert s == [s[0]] + s[1..];
      if keep(s[0]) then [s[0]] + Filter(s[1..], keep) else Filter(s[1..], keep)
  }

  /** The test `x => x !== k`. */
  function Differs<T(==)>(k: T): T -> bool {
    x => x != k
  }

  /** The test `x => !test(x)` a filter keeps by, for a test that may throw: kept when it reads false. */
  function Unless<T>(test: T -> Outcome<bool>): T -> bool {
    x => test(x) == Ok(false)
  }

  /**
   * `s.filter(x => !test(x))` where evaluating the test may throw: the
   * filter throws when the test throws on any element, and otherwise keeps
   * the elements the test reads false on.
   */
  function FilterUnless<T(!new)>(s: seq<T>, test: T -> Outcome<bool>): (r: Outcome<seq<T>>)
    ensures r.Ok? <==> forall i :: 0 <= i < |s| ==> test(s[i]).Ok?
    decreases |s|
  {
    if s == [] then Ok([])
    else
      var head, rest := test(s[0]), FilterUnless(s[1..], test);
      assert forall i :: 1 <= i < |s| ==> s[i] == s[1..][i - 1];
      if head.Thrown? || rest.Thrown? then Thrown
      else Ok(if head.value then rest.value else [s[0]] + rest.value)
  }

  /** When nothing throws, the filter keeps what `filter` keeps: in order, each as often as it occurs. */
  lemma {:induction false} FilterUnlessFilters<T(!new)>(s: seq<T>, test: T -> Outcome<bool>)
    requires FilterUnless(s, test).Ok?
    ensures FilterUnless(s, test).value == Filter(s, Unless(test))
    decreases |s|
  {
    if s != [] {
      FilterUnlessFilters(s[1..], test);
    }
  }

  /** Filtering a concatenation filters each part: the kept values stay in their order. */
  lemma {:induction false} FilterAppend<T(!new)>(a: seq<T>, b: seq<T>, keep: T -> bool)
    ensures Filter(a + b, keep) == Filter(a, keep) + Filter(b, keep)
    decreases |a|
  {
    if a == [] {
      assert a + b == b;
    } else {
      assert (a + b)[0] == a[0];
      assert (a + b)[1..] == a[1..] + b;
      FilterAppend(a[1..], b, keep);
    }
  }

  // ---------------------------------------------------------------------------
  // Strings

  predicate StartsWith(s: string, prefix: string) {
    |prefix| <= |s| && s[..|prefix|] == prefix
  }

  /** `s.includes(t)`. */
  predicate Includes(s: string, t: string)
    decreases |s|
  {
    StartsWith(s, t) || (|s| > 0 && Includes(s[1..], t))
  }

  /** `s.toLowerCase()` on the ASCII letters. */
  function LowerAscii(s: string): (r: string)
    ensures |r| == |s|
    ensures forall i :: 0 <= i < |s| ==> r[i] == if 'A' <= s[i] <= 'Z' then (s[i] as int + 32) as char else s[i]
  {
    seq(|s|, i requires 0 <= i < |s| => if 'A' <= s[i] <= 'Z' then (s[i] as int + 32) as char else s[i])
  }

  /** The default string comparison, character by character (by code point). */
  predicate StrLess(a: string, b: string)
    decreases |a|
  {
    if a == [] then b != []
    else b != [] && (a[0] < b[0] || (a[0] == b[0] && StrLess(a[1..], b[1..])))
  }

  lemma {:induction false} StrLessIrreflexive(a: string)
    ensures !StrLess(a, a)
    decreases |a|
  {
    if a != [] {
      StrLessIrreflexive(a[1..]);
    }
  }

  lemma {:induction false} StrLessTransitive(a: string, b: string, c: string)
    requires StrLess(a, b) && StrLess(b, c)
    ensures StrLess(a, c)
    decreases |a|
  {
    if a != [] && a[0] == b[0] && b[0] == c[0] {
      StrLessTransitive(a[1..], b[1..], c[1..]);
    }
  }

  lemma {:induction false} StrLessTotal(a: string, b: string)
    requires a != b
    ensures StrLess(a, b) || StrLess(b, a)
    decreases |a|
  {
    if a != [] && b != [] && a[0] == b[0] {
      assert a == [a[0]] + a[1..] && b == [b[0]] + b[1..];
      StrLessTotal(a[1..], b[1..]);
    }
  }

  lemma StrLessAsymmetric(a: string, b: string)
    requires StrLess(a, b)
    ensures !StrLess(b, a)
  {
    if StrLess(b, a) {
      StrLessTransitive(a, b, a);
      StrLessIrreflexive(a);
    }
  }
}

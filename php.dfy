/**
 * The part of PHP's value semantics that the plugin's code depends on:
 * `empty()`, `intval`/`absint`, `explode`/`implode`, `strtolower`, `strcmp`,
 * the loose `==` between an integer and a string (PHP 8 rules), `array_unique`,
 * and PHP arrays used as ordered maps (`$a[$k] = $v`, `unset`, `array_merge`).
 */
module Php {

  datatype Option<+T> = None | Some(value: T)

  /** `empty($s)` on a string: true for "" and for "0". */
  predicate EmptyString(s: string) {
    s == "" || s == "0"
  }

  predicate IsDigit(c: char) {
    '0' <= c <= '9'
  }

  /** The white space `intval` skips before a number. */
  predicate IsSpace(c: char) {
    c == ' ' || c == '\t' || c == '\n' || c == '\r' || c as int == 11 || c as int == 12
  }

  predicate AllDigits(s: string) {
    forall i :: 0 <= i < |s| ==> IsDigit(s[i])
  }

  function TrimLeft(s: string): (t: string)
    ensures |t| <= |s| && t == s[|s| - |t|..]
    ensures t == [] || !IsSpace(t[0])
  {
    if s != [] && IsSpace(s[0]) then TrimLeft(s[1..]) else s
  }

  /** The longest prefix of `s` made of decimal digits. */
  function DigitPrefix(s: string): (d: string)
    ensures d <= s && AllDigits(d)
    ensures |d| < |s| ==> !IsDigit(s[|d|])
  {
    if s != [] && IsDigit(s[0]) then [s[0]] + DigitPrefix(s[1..]) else []
  }

  function DigitsValue(d: string): nat
    requires AllDigits(d)
  {
    if d == [] then 0 else 10 * DigitsValue(d[..|d| - 1]) + (d[|d| - 1] as int - '0' as int)
  }

  /**
   * `intval($s)`: optional leading white space, an optional sign, then the
   * longest run of decimal digits; 0 when there is no digit.
   */
  function IntVal(s: string): int {
    var t := TrimLeft(s);
    if t != [] && t[0] == '-' then -(DigitsValue(DigitPrefix(t[1..])) as int)
    else if t != [] && t[0] == '+' then DigitsValue(DigitPrefix(t[1..]))
    else DigitsValue(DigitPrefix(t))
  }

  function Abs(i: int): nat {
    if i < 0 then -i else i
  }

  /** WordPress's `absint($s)`: `abs(intval($s))`. */
  function AbsInt(s: string): nat {
    Abs(IntVal(s))
  }

  /** `array_map('absint', $ids)`. */
  function AbsInts(s: seq<string>): (r: seq<nat>)
    ensures |r| == |s| && forall i :: 0 <= i < |s| ==> r[i] == AbsInt(s[i])
  {
    seq(|s|, i requires 0 <= i < |s| => AbsInt(s[i]))
  }

  function DigitChar(d: nat): (c: char)
    requires d < 10
    ensures IsDigit(c) && c as int - '0' as int == d
  {
    ('0' as int + d) as char
  }

  /** The decimal form PHP gives a non-negative integer (`(string) $n`). */
  function NatToString(n: nat): (s: string)
    ensures s != [] && AllDigits(s)
  {
    if n < 10 then [DigitChar(n)] else NatToString(n / 10) + [DigitChar(n % 10)]
  }

  lemma {:induction false} DigitsValueOfNatToString(n: nat)
    ensures DigitsValue(NatToString(n)) == n
  {
    if n >= 10 {
      DigitsValueOfNatToString(n / 10);
      var s := NatToString(n);
      assert s[..|s| - 1] == NatToString(n / 10);
    }
  }

  lemma {:induction false} DigitPrefixOfDigits(s: string)
    requires AllDigits(s)
    ensures DigitPrefix(s) == s
  {
    if s != [] {
      DigitPrefixOfDigits(s[1..]);
    }
  }

  /** Printing an ID and reading it back with `absint` gives the ID. */
  lemma IntValOfNatToString(n: nat)
    ensures IntVal(NatToString(n)) == n && AbsInt(NatToString(n)) == n
  {
    var s := NatToString(n);
    assert TrimLeft(s) == s;
    DigitPrefixOfDigits(s);
    DigitsValueOfNatToString(n);
  }

  /** `NatToString` is injective: distinct IDs print differently. */
  lemma NatToStringInjective(m: nat, n: nat)
    requires NatToString(m) == NatToString(n)
    ensures m == n
  {
    IntValOfNatToString(m);
    IntValOfNatToString(n);
  }

  // ---------------------------------------------------------------------------
  // explode / implode

  function IndexOf(s: string, c: char): (i: nat)
    requires c in s
    ensures i < |s| && s[i] == c && c !in s[..i]
  {
    if s[0] == c then 0 else 1 + IndexOf(s[1..], c)
  }

  /** `explode($sep, $s)`: the pieces between separators; "" gives [""]. */
  function Explode(sep: char, s: string): (parts: seq<string>)
    ensures |parts| >= 1
    ensures forall i :: 0 <= i < |parts| ==> sep !in parts[i]
    decreases |s|
  {
    if sep !in s then [s]
    else
      var i := IndexOf(s, sep);
      [s[..i]] + Explode(sep, s[i + 1..])
  }

  /** `implode($sep, $parts)`. */
  function Implode(sep: char, parts: seq<string>): string {
    if |parts| == 0 then ""
    else if |parts| == 1 then parts[0]
    else parts[0] + [sep] + Implode(sep, parts[1..])
  }

  /** Splitting a joined list gives the list back when no piece holds the separator. */
  lemma {:induction false} ExplodeImplode(sep: char, parts: seq<string>)
    requires |parts| >= 1
    requires forall i :: 0 <= i < |parts| ==> sep !in parts[i]
    ensures Explode(sep, Implode(sep, parts)) == parts
  {
    if |parts| > 1 {
      var rest := Implode(sep, parts[1..]);
      var s := parts[0] + [sep] + rest;
      assert s[|parts[0]|] == sep;
      assert s[..|parts[0]|] == parts[0];
      assert IndexOf(s, sep) == |parts[0]|;
      assert s[|parts[0]| + 1..] == rest;
      ExplodeImplode(sep, parts[1..]);
    }
  }

  /** The decimal forms of a list of IDs. */
  function NatStrings(ids: seq<nat>): (r: seq<string>)
    ensures |r| == |ids| && forall i :: 0 <= i < |ids| ==> r[i] == NatToString(ids[i])
  {
    seq(|ids|, i requires 0 <= i < |ids| => NatToString(ids[i]))
  }

  /**
   * `implode(',', $ids)` of a non-empty ID list, split again with
   * `explode(',', ...)` and read with `absint`, gives the IDs back.
   */
  lemma ExplodeImplodeNats(ids: seq<nat>)
    requires |ids| >= 1
    ensures Explode(',', Implode(',', NatStrings(ids))) == NatStrings(ids)
    ensures AbsInts(NatStrings(ids)) == ids
  {
    var parts := NatStrings(ids);
    forall i | 0 <= i < |parts| ensures ',' !in parts[i] {
      assert AllDigits(parts[i]);
    }
    ExplodeImplode(',', parts);
    forall i | 0 <= i < |ids| ensures AbsInts(parts)[i] == ids[i] {
      IntValOfNatToString(ids[i]);
    }
  }

  // ---------------------------------------------------------------------------
  // strtolower, strcmp

  function ToLowerChar(c: char): char {
    if 'A' <= c <= 'Z' then (c as int + 32) as char else c
  }

  /** `strtolower` on ASCII letters. */
  function ToLower(s: string): (t: string)
    ensures |t| == |s| && forall i :: 0 <= i < |s| ==> t[i] == ToLowerChar(s[i])
  {
    seq(|s|, i requires 0 <= i < |s| => ToLowerChar(s[i]))
  }

  /** `strcmp($a, $b)` as the sign PHP 8 returns: character by character, a prefix first. */
  function StrCmp(a: string, b: string): (r: int)
    ensures -1 <= r <= 1
    ensures r == 0 <==> a == b
  {
    if a == [] && b == [] then 0
    else if a == [] then -1
    else if b == [] then 1
    else if a[0] < b[0] then -1
    else if a[0] > b[0] then 1
    else
      var r := StrCmp(a[1..], b[1..]);
      assert r == 0 ==> a == [a[0]] + a[1..] == [b[0]] + b[1..] == b;
      r
  }

  lemma {:induction false} StrCmpAntisymmetric(a: string, b: string)
    ensures StrCmp(a, b) == -StrCmp(b, a)
  {
    if a != [] && b != [] && a[0] == b[0] {
      StrCmpAntisymmetric(a[1..], b[1..]);
    }
  }

  lemma {:induction false} StrCmpTransitive(a: string, b: string, c: string)
    requires StrCmp(a, b) <= 0 && StrCmp(b, c) <= 0
    ensures StrCmp(a, c) <= 0
  {
    if a != [] && b != [] && c != [] && a[0] == b[0] == c[0] {
      StrCmpTransitive(a[1..], b[1..], c[1..]);
    }
  }

  // ---------------------------------------------------------------------------
  // Loose comparison of an integer with a string (PHP 8)

  /**
   * An integer-shaped numeric string: optional leading white space, an
   * optional sign, at least one digit, optional trailing white space.
   */
  predicate IsNumericIntString(s: string) {
    var t := TrimLeft(s);
    var body := if t != [] && (t[0] == '-' || t[0] == '+') then t[1..] else t;
    var d := DigitPrefix(body);
    d != [] && forall i :: |d| <= i < |body| ==> IsSpace(body[i])
  }

  /**
   * `$n == $s` for an integer `$n` and a string `$s` in PHP 8: numeric
   * comparison when `$s` is numeric, otherwise comparison of `(string) $n` with `$s`.
   */
  predicate LooseEqualsInt(n: nat, s: string) {
    if IsNumericIntString(s) then IntVal(s) == n else NatToString(n) == s
  }

  /** For the decimal form of an ID, loose equality is equality of the IDs. */
  lemma LooseEqualsNatToString(n: nat, m: nat)
    ensures LooseEqualsInt(n, NatToString(m)) <==> n == m
  {
    var s := NatToString(m);
    assert TrimLeft(s) == s;
    DigitPrefixOfDigits(s);
    IntValOfNatToString(m);
  }

  /** `in_array($n, $strings)` with loose comparison. */
  predicate LooseIn(n: nat, strings: seq<string>) {
    exists i :: 0 <= i < |strings| && LooseEqualsInt(n, strings[i])
  }

  // ---------------------------------------------------------------------------
  // array_unique on a list

  /** `array_unique` followed by iteration: first occurrences, in order. */
  function Dedup<T(==,!new)>(s: seq<T>): (r: seq<T>)
    ensures forall x :: x in r <==> x in s
    ensures forall i, j :: 0 <= i < j < |r| ==> r[i] != r[j]
    ensures |r| <= |s|
  {
    if s == [] then []
    else
      var rest := Dedup(s[..|s| - 1]);
      if s[|s| - 1] in rest then rest else rest + [s[|s| - 1]]
  }

  // ---------------------------------------------------------------------------
  // PHP arrays with string keys, as ordered maps

  predicate DistinctKeys<K(==,!new), V>(m: seq<(K, V)>) {
    forall i, j :: 0 <= i < j < |m| ==> m[i].0 != m[j].0
  }

  /** A PHP array: its entries in insertion order, no key twice. */
  type OMap<K(==,!new), V> = m: seq<(K, V)> | DistinctKeys(m) witness []

  function Keys<K(==,!new), V>(m: seq<(K, V)>): (ks: seq<K>)
    ensures |ks| == |m| && forall i :: 0 <= i < |m| ==> ks[i] == m[i].0
  {
    seq(|m|, i requires 0 <= i < |m| => m[i].0)
  }

  /** `isset($m[$k])` (values are never null here) and `$m[$k]`. */
  function Lookup<K(==,!new), V>(m: seq<(K, V)>, k: K): (r: Option<V>)
    ensures r.Some? <==> k in Keys(m)
    ensures r.Some? ==> exists i :: 0 <= i < |m| && m[i] == (k, r.value)
  {
    if m == [] then None
    else if m[0].0 == k then Some(m[0].1)
    else
      var r := Lookup(m[1..], k);
      assert Keys(m) == [m[0].0] + Keys(m[1..]);
      r
  }

  lemma LookupAt<K(!new), V>(m: OMap<K, V>, i: nat)
    requires i < |m|
    ensures Lookup(m, m[i].0) == Some(m[i].1)
  {
    if i > 0 {
      LookupAt(m[1..], i - 1);
    }
  }

  /** `$m[$k] = $v`: an existing key keeps its place, a new key goes last. */
  function Put<K(==,!new), V>(m: OMap<K, V>, k: K, v: V): (r: OMap<K, V>)
    ensures Keys(r) == if k in Keys(m) then Keys(m) else Keys(m) + [k]
    ensures forall k' :: Lookup(r, k') == if k' == k then Some(v) else Lookup(m, k')
  {
    if m == [] then [(k, v)]
    else if m[0].0 == k then
      assert k !in Keys(m[1..]) by {
        assert forall i :: 0 <= i < |m[1..]| ==> m[1..][i].0 == m[i + 1].0 != m[0].0;
      }
      assert Keys([(k, v)] + m[1..]) == [k] + Keys(m[1..]);
      assert Keys(m) == [k] + Keys(m[1..]);
      [(k, v)] + m[1..]
    else
      var rest := Put(m[1..], k, v);
      assert m[0].0 !in Keys(m[1..]);
      assert Keys([m[0]] + rest) == [m[0].0] + Keys(rest);
      assert Keys(m) == [m[0].0] + Keys(m[1..]);
      [m[0]] + rest
  }

  /** `unset($m[$k])`: every other entry keeps its value and its order. */
  function Unset<K(==,!new), V>(m: OMap<K, V>, k: K): (r: OMap<K, V>)
    ensures k !in Keys(r)
    ensures forall k' :: k' != k ==> Lookup(r, k') == Lookup(m, k')
    ensures |r| == if k in Keys(m) then |m| - 1 else |m|
  {
    if m == [] then []
    else if m[0].0 == k then
      assert k !in Keys(m[1..]) by {
        assert forall i :: 0 <= i < |m[1..]| ==> m[1..][i].0 == m[i + 1].0 != m[0].0;
      }
      m[1..]
    else
      var rest := Unset(m[1..], k);
      assert m[0].0 !in Keys(m[1..]) by {
        assert forall i :: 0 <= i < |m[1..]| ==> m[1..][i].0 == m[i + 1].0 != m[0].0;
      }
      assert Lookup(rest, m[0].0) == Lookup(m[1..], m[0].0);
      assert Keys([m[0]] + rest) == [m[0].0] + Keys(rest);
      assert Keys(m) == [m[0].0] + Keys(m[1..]);
      [m[0]] + rest
  }

  /**
   * `array_merge($a, $b)` for string keys, which is also what
   * `wp_parse_args($b, $a)` returns: the keys of `$b` override, new keys are appended.
   */
  function Merge<K(==,!new), V>(a: OMap<K, V>, b: OMap<K, V>): (r: OMap<K, V>)
    ensures forall k :: Lookup(r, k) == if Lookup(b, k).Some? then Lookup(b, k) else Lookup(a, k)
    decreases |b|
  {
    if b == [] then a
    else
      var r := Merge(Put(a, b[0].0, b[0].1), b[1..]);
      assert forall k :: Lookup(b, k) == if k == b[0].0 then Some(b[0].1) else Lookup(b[1..], k);
      assert forall k :: k == b[0].0 ==> Lookup(b[1..], k).None? by {
        assert forall i :: 0 <= i < |b[1..]| ==> b[1..][i].0 == b[i + 1].0 != b[0].0;
      }
      r
  }

  /** Every key of `a` keeps its place at the front of `array_merge($a, $b)`. */
  lemma {:induction false} MergeKeysPrefix<K(!new), V>(a: OMap<K, V>, b: OMap<K, V>)
    ensures Keys(a) <= Keys(Merge(a, b))
    decreases |b|
  {
    if b != [] {
      var a' := Put(a, b[0].0, b[0].1);
      MergeKeysPrefix(a', b[1..]);
    }
  }

  /** `s` with every occurrence of `x` removed, the rest in order. */
  function Without<T(==,!new)>(s: seq<T>, x: T): (r: seq<T>)
    ensures forall y :: y in r <==> y in s && y != x
    ensures |r| <= |s|
  {
    if s == [] then []
    else if s[0] == x then Without(s[1..], x)
    else [s[0]] + Without(s[1..], x)
  }

  /** `unset($m[$k])` keeps the other keys in their order. */
  lemma {:induction false} UnsetKeys<K(!new), V>(m: OMap<K, V>, k: K)
    ensures Keys(Unset(m, k)) == Without(Keys(m), k)
  {
    if m != [] {
      assert Keys(m) == [m[0].0] + Keys(m[1..]);
      UnsetKeys(m[1..], k);
      if m[0].0 == k {
        assert k !in Keys(m[1..]) by {
          assert forall i :: 0 <= i < |m[1..]| ==> m[1..][i].0 == m[i + 1].0 != m[0].0;
        }
        WithoutAbsent(Keys(m[1..]), k);
      } else {
        var rest := Unset(m[1..], k);
        assert Keys([m[0]] + rest) == [m[0].0] + Keys(rest);
      }
    }
  }

  lemma {:induction false} WithoutAbsent<T(!new)>(s: seq<T>, x: T)
    requires x !in s
    ensures Without(s, x) == s
  {
    if s != [] {
      WithoutAbsent(s[1..], x);
    }
  }

  /** Appending a new key: the entries before it are found as before. */
  lemma {:induction false} LookupAppend<K(!new), V>(m: OMap<K, V>, k: K, v: V)
    requires k !in Keys(m)
    ensures DistinctKeys(m + [(k, v)])
    ensures Keys(m + [(k, v)]) == Keys(m) + [k]
    ensures forall k' :: Lookup(m + [(k, v)], k') == if k' == k then Some(v) else Lookup(m, k')
  {
    assert forall i :: 0 <= i < |m| ==> m[i].0 == Keys(m)[i];
    if m != [] {
      assert (m + [(k, v)])[1..] == m[1..] + [(k, v)];
      assert Keys(m) == [m[0].0] + Keys(m[1..]);
      LookupAppend(m[1..], k, v);
    }
  }

  // ---------------------------------------------------------------------------
  // Subsequences

  /** `a` is `b` with some elements left out, the rest in order. */
  predicate Subsequence<T(==)>(a: seq<T>, b: seq<T>)
    decreases |b|
  {
    if a == [] then true
    else if b == [] then false
    else if a[|a| - 1] == b[|b| - 1] then Subsequence(a[..|a| - 1], b[..|b| - 1])
    else Subsequence(a, b[..|b| - 1])
  }

  lemma {:induction false} SubsequenceReflexive<T>(s: seq<T>)
    ensures Subsequence(s, s)
    decreases |s|
  {
    if s != [] {
      SubsequenceReflexive(s[..|s| - 1]);
    }
  }

  lemma SubsequenceExtendBoth<T>(a: seq<T>, b: seq<T>, x: T)
    requires Subsequence(a, b)
    ensures Subsequence(a + [x], b + [x])
  {
    assert (a + [x])[..|a|] == a;
    assert (b + [x])[..|b|] == b;
  }

  lemma {:induction false} SubsequenceExtend<T>(a: seq<T>, b: seq<T>, x: T)
    requires Subsequence(a, b)
    ensures Subsequence(a, b + [x])
    decreases |b|, 1
  {
    assert (b + [x])[..|b|] == b;
    if a != [] && a[|a| - 1] == x {
      SubsequenceDropLast(a, b);
    }
  }

  lemma {:induction false} SubsequenceDropLast<T>(a: seq<T>, b: seq<T>)
    requires Subsequence(a, b) && a != []
    ensures Subsequence(a[..|a| - 1], b)
    decreases |b|, 0
  {
    var b' := b[..|b| - 1];
    assert b == b' + [b[|b| - 1]];
    if a[|a| - 1] == b[|b| - 1] {
      SubsequenceExtend(a[..|a| - 1], b', b[|b| - 1]);
    } else {
      SubsequenceDropLast(a, b');
      SubsequenceExtend(a[..|a| - 1], b', b[|b| - 1]);
    }
  }

  lemma {:induction false} SubsequencePrepend<T>(a: seq<T>, b: seq<T>, x: T)
    requires Subsequence(a, b)
    ensures Subsequence(a, [x] + b)
    decreases |b|
  {
    if a != [] {
      var b' := b[..|b| - 1];
      assert ([x] + b)[..|b|] == [x] + b';
      if a[|a| - 1] == b[|b| - 1] {
        SubsequencePrepend(a[..|a| - 1], b', x);
      } else {
        SubsequencePrepend(a, b', x);
      }
    }
  }

  lemma {:induction false} SubsequencePrependBoth<T>(a: seq<T>, b: seq<T>, x: T)
    requires Subsequence(a, b)
    ensures Subsequence([x] + a, [x] + b)
    decreases |b|
  {
    if b != [] {
      var b' := b[..|b| - 1];
      assert ([x] + b)[..|b|] == [x] + b';
      if a == [] {
        SubsequencePrependBoth(a, b', x);
      } else {
        assert ([x] + a)[..|a|] == [x] + a[..|a| - 1];
        if a[|a| - 1] == b[|b| - 1] {
          SubsequencePrependBoth(a[..|a| - 1], b', x);
        } else {
          SubsequencePrependBoth(a, b', x);
        }
      }
    }
  }

  lemma {:induction false} SubsequenceMembers<T>(a: seq<T>, b: seq<T>)
    requires Subsequence(a, b)
    ensures forall x :: x in a ==> x in b
    decreases |b|
  {
    if a != [] {
      var a' := a[..|a| - 1];
      var b' := b[..|b| - 1];
      assert a == a' + [a[|a| - 1]];
      assert b == b' + [b[|b| - 1]];
      if a[|a| - 1] == b[|b| - 1] {
        SubsequenceMembers(a', b');
      } else {
        SubsequenceMembers(a, b');
      }
    }
  }

  lemma {:induction false} SubsequenceTransitive<T>(a: seq<T>, b: seq<T>, c: seq<T>)
    requires Subsequence(a, b) && Subsequence(b, c)
    ensures Subsequence(a, c)
    decreases |c|
  {
    if a != [] {
      var c' := c[..|c| - 1];
      assert c == c' + [c[|c| - 1]];
      if b[|b| - 1] == c[|c| - 1] {
        var b' := b[..|b| - 1];
        assert b == b' + [b[|b| - 1]];
        if a[|a| - 1] == b[|b| - 1] {
          var a' := a[..|a| - 1];
          assert a == a' + [a[|a| - 1]];
          SubsequenceTransitive(a', b', c');
          SubsequenceExtendBoth(a', c', c[|c| - 1]);
        } else {
          SubsequenceTransitive(a, b', c');
          SubsequenceExtend(a, c', c[|c| - 1]);
        }
      } else {
        SubsequenceTransitive(a, b, c');
        SubsequenceExtend(a, c', c[|c| - 1]);
      }
    }
  }
}

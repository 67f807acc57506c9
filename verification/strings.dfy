/**
 * Strings as `seq<char>`: lexicographic order (how the store compares
 * `YYYY-MM-DD` dates), decimal digits, and the few `String.prototype`
 * operations the services use.
 */
module Strings {
  import opened Wrappers
  import opened Seqs

  // ---------------------------------------------------------------- truthiness

  /** An optional text that is present and not empty: how JavaScript tests `if (s)`. */
  predicate Given(o: Option<string>) {
    o.Some? && o.value != ""
  }

  // ---------------------------------------------------------------- order

  /** Lexicographic `a <= b` by code point. */
  predicate StrLe(a: string, b: string)
    decreases |a|
  {
    if |a| == 0 then true
    else if |b| == 0 then false
    else if a[0] != b[0] then a[0] < b[0]
    else StrLe(a[1..], b[1..])
  }

  lemma {:induction false} StrLeTotal(a: string, b: string)
    ensures StrLe(a, b) || StrLe(b, a)
    decreases |a|
  {
    if |a| > 0 && |b| > 0 && a[0] == b[0] {
      StrLeTotal(a[1..], b[1..]);
    }
  }

  lemma {:induction false} StrLeTransitive(a: string, b: string, c: string)
    requires StrLe(a, b) && StrLe(b, c)
    ensures StrLe(a, c)
    decreases |a|
  {
    if |a| > 0 && |b| > 0 && |c| > 0 && a[0] == b[0] && b[0] == c[0] {
      StrLeTransitive(a[1..], b[1..], c[1..]);
    }
  }

  lemma {:induction false} StrLeAntisymmetric(a: string, b: string)
    requires StrLe(a, b) && StrLe(b, a)
    ensures a == b
    decreases |a|
  {
    if |a| > 0 && |b| > 0 {
      StrLeAntisymmetric(a[1..], b[1..]);
      assert a == [a[0]] + a[1..] && b == [b[0]] + b[1..];
    }
  }

  /** Ascending order of a string key (`ORDER BY date`). */
  function ByStrAsc<T>(key: T -> string): (T, T) -> bool {
    (a: T, b: T) => StrLe(key(a), key(b))
  }

  /** Descending order of a string key (`ORDER BY date DESC`). */
  function ByStrDesc<T>(key: T -> string): (T, T) -> bool {
    (a: T, b: T) => StrLe(key(b), key(a))
  }

  lemma StrOrdersArePreorders<T(!new)>(key: T -> string)
    ensures TotalPreorder(ByStrAsc(key))
    ensures TotalPreorder(ByStrDesc(key))
  {
    forall a: T, b: T ensures StrLe(key(a), key(b)) || StrLe(key(b), key(a)) {
      StrLeTotal(key(a), key(b));
    }
    forall a: T, b: T, c: T | StrLe(key(a), key(b)) && StrLe(key(b), key(c))
      ensures StrLe(key(a), key(c))
    {
      StrLeTransitive(key(a), key(b), key(c));
    }
    forall a: T, b: T, c: T | StrLe(key(b), key(a)) && StrLe(key(c), key(b))
      ensures StrLe(key(c), key(a))
    {
      StrLeTransitive(key(c), key(b), key(a));
    }
  }

  /** `ORDER BY key` on a text key (dates in ISO form sort as text). */
  function SortStrAsc<T(!new)>(s: seq<T>, key: T -> string): (r: seq<T>)
    ensures multiset(r) == multiset(s) && |r| == |s|
    ensures forall x :: x in r <==> x in s
    ensures forall i, j | 0 <= i < j < |r| :: StrLe(key(r[i]), key(r[j]))
  {
    StrOrdersArePreorders(key);
    SortByMembers(s, ByStrAsc(key));
    SortBy(s, ByStrAsc(key))
  }

  /** `ORDER BY key DESC` on a text key. */
  function SortStrDesc<T(!new)>(s: seq<T>, key: T -> string): (r: seq<T>)
    ensures multiset(r) == multiset(s) && |r| == |s|
    ensures forall x :: x in r <==> x in s
    ensures forall i, j | 0 <= i < j < |r| :: StrLe(key(r[j]), key(r[i]))
  {
    StrOrdersArePreorders(key);
    SortByMembers(s, ByStrDesc(key));
    SortBy(s, ByStrDesc(key))
  }

  /** In a list sorted ascending by a key whose values are distinct, the keys strictly increase. */
  lemma SortedDistinctStrictlyIncreasing(s: seq<string>)
    requires SortedBy(s, (a: string, b: string) => StrLe(a, b))
    requires NoDup(s)
    ensures forall i, j | 0 <= i < j < |s| :: StrLe(s[i], s[j]) && s[i] != s[j]
  {
  }

  // ---------------------------------------------------------------- digits

  /** `\d` in a JavaScript regular expression without the `u` flag. */
  predicate IsDigit(c: char) {
    '0' <= c <= '9'
  }

  predicate AllDigits(s: string) {
    forall i | 0 <= i < |s| :: IsDigit(s[i])
  }

  function DigitValue(c: char): nat
    requires IsDigit(c)
  {
    (c as int) - ('0' as int)
  }

  function DigitChar(d: nat): (c: char)
    requires d < 10
    ensures IsDigit(c) && DigitValue(c) == d
  {
    (('0' as int) + d) as char
  }

  /** The decimal value of a digit string (`parseInt` on one). */
  function DigitsValue(s: string): nat
    requires AllDigits(s)
    decreases |s|
  {
    if |s| == 0 then 0
    else 10 * DigitsValue(s[..|s| - 1]) + DigitValue(s[|s| - 1])
  }

  /** The decimal rendering of a natural number (`${n}` for n >= 0). */
  function NatToString(n: nat): (r: string)
    ensures |r| > 0 && AllDigits(r)
    decreases n
  {
    if n < 10 then [DigitChar(n)]
    else NatToString(n / 10) + [DigitChar(n % 10)]
  }

  /** Reading back a rendered number gives the number. */
  lemma {:induction false} NatToStringRoundTrip(n: nat)
    ensures DigitsValue(NatToString(n)) == n
    decreases n
  {
    var r := NatToString(n);
    if n >= 10 {
      NatToStringRoundTrip(n / 10);
      assert r[..|r| - 1] == NatToString(n / 10);
    }
  }

  /** The decimal rendering of an integer, with a leading `-` when negative. */
  function IntToString(i: int): (r: string)
    ensures i >= 0 ==> r == NatToString(i)
    ensures i < 0 ==> r == "-" + NatToString(-i)
  {
    if i < 0 then "-" + NatToString(-i) else NatToString(i)
  }

  // ---------------------------------------------------------------- search

  /** `s.indexOf(c)`, as `None` for -1. */
  function IndexOfChar(s: string, c: char): (r: Option<nat>)
    ensures r.None? <==> c !in s
    ensures r.Some? ==> r.value < |s| && s[r.value] == c && c !in s[..r.value]
  {
    if c in s then Some(IndexOf(s, c)) else None
  }

  /** `s.replace(c, rep)` with a one-character search string: only the FIRST occurrence is replaced. */
  function ReplaceFirst(s: string, c: char, rep: string): (r: string)
    ensures c !in s ==> r == s
    ensures c in s ==> exists i | 0 <= i < |s| :: s[i] == c && c !in s[..i] && r == s[..i] + rep + s[i + 1..]
  {
    match IndexOfChar(s, c)
    case None => s
    case Some(i) => s[..i] + rep + s[i + 1..]
  }

  /** `s.split(sep)` with a one-character separator: always at least one piece. */
  function Split(s: string, sep: char): (r: seq<string>)
    ensures |r| >= 1
    ensures forall i | 0 <= i < |r| :: sep !in r[i]
    decreases |s|
  {
    match IndexOfChar(s, sep)
    case None => [s]
    case Some(i) => [s[..i]] + Split(s[i + 1..], sep)
  }

  /** A piece free of the separator followed by the separator splits off first. */
  lemma SplitCons(a: string, sep: char, rest: string)
    requires sep !in a
    ensures Split(a + [sep] + rest, sep) == [a] + Split(rest, sep)
  {
    var s := a + [sep] + rest;
    assert s[..|a|] == a;
    assert s[|a| + 1..] == rest;
    assert s[|a|] == sep;
    assert forall j | 0 <= j < |a| :: s[j] == a[j];
    assert IndexOf(s, sep) == |a|;
  }

  /** Joining three pieces free of the separator and splitting again gives the pieces back. */
  lemma SplitJoin3(a: string, b: string, c: string, sep: char)
    requires sep !in a && sep !in b && sep !in c
    ensures Split(a + [sep] + b + [sep] + c, sep) == [a, b, c]
  {
    assert a + [sep] + b + [sep] + c == a + [sep] + (b + [sep] + c);
    SplitCons(a, sep, b + [sep] + c);
    SplitCons(b, sep, c);
  }

  // ---------------------------------------------------------------- UTF-16

  /** No character of `s` lies beyond U+FFFF, so each takes one UTF-16 code unit. */
  predicate Bmp(s: string) {
    forall i | 0 <= i < |s| :: s[i] as int <= 0xFFFF
  }

  /**
   * A string's `length` in JavaScript, which zod's `min` and `max` compare:
   * UTF-16 code units, two for a character beyond U+FFFF.
   */
  function Utf16Length(s: string): (n: nat)
    ensures |s| <= n <= 2 * |s|
    ensures n == |s| <==> Bmp(s)
  {
    if |s| == 0 then 0
    else (if s[0] as int <= 0xFFFF then 1 else 2) + Utf16Length(s[1..])
  }

  /** The JavaScript length of a concatenation is the sum of the lengths. */
  lemma {:induction false} Utf16LengthAppend(a: string, b: string)
    ensures Utf16Length(a + b) == Utf16Length(a) + Utf16Length(b)
    decreases |a|
  {
    if |a| == 0 {
      assert a + b == b;
    } else {
      assert (a + b)[0] == a[0] && (a + b)[1..] == a[1..] + b;
      Utf16LengthAppend(a[1..], b);
    }
  }

  /** The UTF-16 code units one character takes. */
  function CharUnits(c: char): nat {
    if c as int <= 0xFFFF then 1 else 2
  }

  /** A character in front adds its own units. */
  lemma Utf16LengthCons(c: char, t: string)
    ensures Utf16Length([c] + t) == CharUnits(c) + Utf16Length(t)
  {
    assert ([c] + t)[1..] == t;
  }

  /**
   * `s.slice(0, n)` as JavaScript counts: the longest prefix of whole
   * characters at most `n` UTF-16 code units long.
   */
  function Utf16Prefix(s: string, n: nat): (r: string)
    ensures |r| <= |s| && r == s[..|r|]
    ensures Utf16Length(r) <= n
    ensures |r| < |s| ==> Utf16Length(s[..|r| + 1]) > n
  {
    if |s| == 0 then []
    else if CharUnits(s[0]) > n then
      Utf16LengthCons(s[0], []);
      assert s[..1] == [s[0]] + [];
      []
    else
      var rest := Utf16Prefix(s[1..], n - CharUnits(s[0]));
      Utf16PrefixStep(s, n, rest);
      [s[0]] + rest
  }

  /** Taking the first character in front of the longest fitting prefix of the rest. */
  lemma Utf16PrefixStep(s: string, n: nat, rest: string)
    requires |s| > 0 && CharUnits(s[0]) <= n
    requires |rest| <= |s| - 1 && rest == s[1..][..|rest|]
    requires Utf16Length(rest) <= n - CharUnits(s[0])
    requires |rest| < |s| - 1 ==> Utf16Length(s[1..][..|rest| + 1]) > n - CharUnits(s[0])
    ensures |[s[0]] + rest| <= |s| && [s[0]] + rest == s[..|rest| + 1]
    ensures Utf16Length([s[0]] + rest) <= n
    ensures |rest| + 1 < |s| ==> Utf16Length(s[..|rest| + 2]) > n
  {
    Utf16LengthCons(s[0], rest);
    if |rest| + 1 < |s| {
      assert s[..|rest| + 2] == [s[0]] + s[1..][..|rest| + 1];
      Utf16LengthCons(s[0], s[1..][..|rest| + 1]);
    }
  }

  /** On text with no character beyond U+FFFF the prefix is the first `n` characters. */
  lemma {:induction false} Utf16PrefixBmp(s: string, n: nat)
    requires Bmp(s)
    ensures Utf16Prefix(s, n) == if |s| <= n then s else s[..n]
    decreases |s|
  {
    if |s| > 0 && n > 0 {
      Utf16PrefixBmp(s[1..], n - 1);
      if |s| > n {
        assert s[..n] == [s[0]] + s[1..][..n - 1];
      } else {
        assert s == [s[0]] + s[1..];
      }
    }
  }
}

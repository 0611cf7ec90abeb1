/**
 * String helpers that the app takes from Kotlin's standard library:
 * `contains`, `trim()`, `length` (counted in UTF-16 code units) and
 * `joinToString`, together with a line splitter that serves as the
 * partner of joining.
 */
module Text {

  datatype Option<+T> = None | Some(value: T)

  /** `t` occurs in `s` starting at index `i`. */
  predicate OccursAt(s: string, i: nat, t: string)
  {
    i + |t| <= |s| && forall k :: 0 <= k < |t| ==> s[i + k] == t[k]
  }

  /** Kotlin's `String.contains(other)`: `t` occurs somewhere in `s`. */
  predicate Contains(s: string, t: string)
    ensures t == [] ==> Contains(s, t)
    ensures Contains(s, t) ==> |t| <= |s|
  {
    assert OccursAt(s, 0, []);
    exists i :: 0 <= i <= |s| && OccursAt(s, i, t)
  }

  /** An occurrence of `t` is an occurrence of each prefix of `t`. */
  lemma OccursAtPrefix(s: string, i: nat, t: string, n: nat)
    requires OccursAt(s, i, t) && n <= |t|
    ensures OccursAt(s, i, t[..n])
  {
  }

  /** `s` contains `t` at `i`, and `t` contains `u` at `j`: then `s` contains `u` at `i + j`. */
  lemma OccursAtTrans(s: string, t: string, u: string, i: nat, j: nat)
    requires OccursAt(s, i, t) && OccursAt(t, j, u)
    ensures OccursAt(s, i + j, u)
  {
    forall k | 0 <= k < |u| ensures s[i + j + k] == u[k] {
      assert s[i + (j + k)] == t[j + k];
    }
  }

  /** A string whose character at `i + j` differs from `t[j]` has no occurrence of `t` at `i`. */
  lemma MismatchAt(s: string, i: nat, j: nat, t: string)
    requires j < |t| && i + j < |s| && s[i + j] != t[j]
    ensures !OccursAt(s, i, t)
  {
  }

  // ---------------------------------------------------------------------
  // Whitespace and trim()

  /**
   * Kotlin's `Char.isWhitespace()` on the JVM: `Character.isWhitespace(c) ||
   * Character.isSpaceChar(c)`, i.e. the ASCII controls TAB..CR and
   * U+001C..U+001F, every space separator (Zs), the line separator and the
   * paragraph separator.
   */
  predicate IsWhitespace(c: char)
  {
    || ('\t' <= c <= '\r')
    || ('\U{1C}' <= c <= '\U{1F}')
    || c == ' ' || c == '\U{A0}' || c == '\U{1680}'
    || ('\U{2000}' <= c <= '\U{200A}')
    || c == '\U{2028}' || c == '\U{2029}'
    || c == '\U{202F}' || c == '\U{205F}' || c == '\U{3000}'
  }

  predicate AllWhitespace(s: string)
  {
    forall k :: 0 <= k < |s| ==> IsWhitespace(s[k])
  }

  /** Index of the first character at or after `i` that is not whitespace (or `|s|`). */
  function SkipWhitespace(s: string, i: nat): (j: nat)
    requires i <= |s|
    ensures i <= j <= |s|
    ensures forall k :: i <= k < j ==> IsWhitespace(s[k])
    ensures j < |s| ==> !IsWhitespace(s[j])
    decreases |s| - i
  {
    if i == |s| || !IsWhitespace(s[i]) then i else SkipWhitespace(s, i + 1)
  }

  /** Index just past the last character before `j` (and at or after `lo`) that is not whitespace (or `lo`). */
  function SkipWhitespaceBack(s: string, lo: nat, j: nat): (e: nat)
    requires lo <= j <= |s|
    ensures lo <= e <= j
    ensures forall k :: e <= k < j ==> IsWhitespace(s[k])
    ensures e > lo ==> !IsWhitespace(s[e - 1])
    decreases j
  {
    if j == lo || !IsWhitespace(s[j - 1]) then j else SkipWhitespaceBack(s, lo, j - 1)
  }

  /** The part of `s` that `trim()` keeps is `s[TrimStart(s)..TrimEnd(s)]`. */
  function TrimStart(s: string): (i: nat)
    ensures i <= |s|
  {
    SkipWhitespace(s, 0)
  }

  function TrimEnd(s: string): (j: nat)
    ensures TrimStart(s) <= j <= |s|
  {
    SkipWhitespaceBack(s, TrimStart(s), |s|)
  }

  /**
   * Kotlin's `String.trim()`: drops leading and trailing whitespace.
   * The result is the slice between the two bounds, what was cut off on
   * either side is whitespace, and the result neither starts nor ends with
   * whitespace; together these determine the result.
   */
  function Trim(s: string): (r: string)
    ensures r == s[TrimStart(s)..TrimEnd(s)]
    ensures AllWhitespace(s[..TrimStart(s)]) && AllWhitespace(s[TrimEnd(s)..])
    ensures r == [] || (!IsWhitespace(r[0]) && !IsWhitespace(r[|r| - 1]))
    ensures r == [] <==> AllWhitespace(s)
  {
    var i, j := TrimStart(s), TrimEnd(s);
    s[i..j]
  }

  /** Trimming twice is the same as trimming once. */
  lemma TrimIdempotent(s: string)
    ensures Trim(Trim(s)) == Trim(s)
  {
    var r := Trim(s);
    if r != [] {
      assert SkipWhitespace(r, 0) == 0;
      assert SkipWhitespaceBack(r, 0, |r|) == |r|;
    }
  }

  // ---------------------------------------------------------------------
  // length

  /**
   * Kotlin's `String.length`: the number of UTF-16 code units, so a
   * character outside the Basic Multilingual Plane counts twice.
   */
  function Utf16Length(s: string): (n: nat)
    ensures |s| <= n <= 2 * |s|
  {
    if s == [] then 0
    else (if s[0] as int > 0xFFFF then 2 else 1) + Utf16Length(s[1..])
  }

  // ---------------------------------------------------------------------
  // joinToString and its partner

  /** Kotlin's `joinToString(sep)`: the items with `sep` between neighbours. */
  function Join(items: seq<string>, sep: string): (r: string)
    ensures items == [] ==> r == []
    ensures items != [] ==> OccursAt(r, 0, items[0])
    ensures items != [] ==> |items[|items| - 1]| <= |r|
    ensures items != [] ==> OccursAt(r, |r| - |items[|items| - 1]|, items[|items| - 1])
    decreases |items|
  {
    if items == [] then ""
    else if |items| == 1 then items[0]
    else
      var rest := Join(items[1..], sep);
      var r := items[0] + sep + rest;
      var last := items[|items| - 1];
      assert items[1..][|items[1..]| - 1] == last;
      assert OccursAt(r, |items[0]| + |sep|, rest);
      OccursAtTrans(r, rest, last, |items[0]| + |sep|, |rest| - |last|);
      r
  }

  /** `s` cut at every occurrence of `sep`; the result always has at least one part. */
  function Split(s: string, sep: char): (parts: seq<string>)
    ensures |parts| >= 1
    decreases |s|
  {
    if s == [] then [[]]
    else
      var rest := Split(s[1..], sep);
      if s[0] == sep then [[]] + rest else [[s[0]] + rest[0]] + rest[1..]
  }

  /** A line without the separator splits into itself. */
  lemma {:induction false} SplitPlain(s: string, sep: char)
    requires sep !in s
    ensures Split(s, sep) == [s]
    decreases |s|
  {
    if s != [] {
      SplitPlain(s[1..], sep);
      assert [s[0]] + s[1..] == s;
    }
  }

  /** Splitting `a + sep + b`, where `a` has no separator, yields `a` followed by the parts of `b`. */
  lemma {:induction false} SplitAfterLine(a: string, sep: char, b: string)
    requires sep !in a
    ensures Split(a + [sep] + b, sep) == [a] + Split(b, sep)
    decreases |a|
  {
    if a == [] {
      assert [] + [sep] + b == [sep] + b;
      assert ([sep] + b)[1..] == b;
    } else {
      var s := a + [sep] + b;
      assert s[0] == a[0] && s[1..] == a[1..] + [sep] + b;
      SplitAfterLine(a[1..], sep, b);
      assert [a[0]] + a[1..] == a;
    }
  }

  /**
   * Joining non-empty lists of lines that contain no separator, then
   * splitting at the separator, gives the lines back: a joined display
   * shows exactly its lines, one per row.
   */
  lemma {:induction false} SplitJoin(items: seq<string>, sep: char)
    requires items != []
    requires forall i :: 0 <= i < |items| ==> sep !in items[i]
    ensures Split(Join(items, [sep]), sep) == items
    decreases |items|
  {
    if |items| == 1 {
      SplitPlain(items[0], sep);
    } else {
      SplitJoin(items[1..], sep);
      SplitAfterLine(items[0], sep, Join(items[1..], [sep]));
      assert [items[0]] + items[1..] == items;
    }
  }
}

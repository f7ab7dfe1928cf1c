/**
 * The handful of JavaScript string operations the store relies on
 * (`startsWith`, `indexOf`, `split`, `trim`, `join`, number-to-string),
 * each defined on `seq<char>` together with the facts the rest of the model needs.
 */
module Strings {

  /** `s.startsWith(prefix)` */
  predicate StartsWith(s: string, prefix: string)
  {
    |prefix| <= |s| && s[..|prefix|] == prefix
  }

  /** `s.indexOf(c, from)` for a one-character needle: the first position at or after
      `from` holding `c`, or -1. */
  function IndexOfFrom(s: string, c: char, from: nat): (r: int)
    decreases |s| - from
    ensures r == -1 || from <= r < |s|
    ensures r == -1 ==> forall i :: from <= i < |s| ==> s[i] != c
    ensures r != -1 ==> s[r] == c && forall i :: from <= i < r ==> s[i] != c
  {
    if from >= |s| then -1
    else if s[from] == c then from
    else IndexOfFrom(s, c, from + 1)
  }

  /** `t` occurs in `s` starting at position `i`. */
  predicate OccursAt(s: string, t: string, i: nat)
  {
    i + |t| <= |s| && s[i..i + |t|] == t
  }

  /** Reference definition of "`s` contains `t`". */
  ghost predicate Contains(s: string, t: string)
  {
    exists i: nat :: OccursAt(s, t, i)
  }

  /** `s.indexOf(t, from)`: the first position at or after `from` where `t` occurs, or -1. */
  function IndexOfSubFrom(s: string, t: string, from: nat): (r: int)
    decreases |s| - from
    ensures r == -1 || (from <= r && OccursAt(s, t, r))
    ensures r == -1 ==> forall i: nat :: from <= i ==> !OccursAt(s, t, i)
    ensures r != -1 ==> forall i: nat :: from <= i < r ==> !OccursAt(s, t, i)
  {
    if from + |t| > |s| then -1
    else if s[from..from + |t|] == t then from
    else IndexOfSubFrom(s, t, from + 1)
  }

  /** `s.indexOf(t) !== -1` holds exactly when `s` contains `t`. */
  lemma IndexOfSubFound(s: string, t: string)
    ensures IndexOfSubFrom(s, t, 0) != -1 <==> Contains(s, t)
  {
    var r := IndexOfSubFrom(s, t, 0);
    if r != -1 {
      assert OccursAt(s, t, r as nat);
    }
  }

  /** `s.split(sep)` for a one-character separator: the pieces between separators, in order. */
  function Split(s: string, sep: char): (parts: seq<string>)
    decreases |s|
    ensures |parts| >= 1
  {
    var i := IndexOfFrom(s, sep, 0);
    if i == -1 then [s] else [s[..i]] + Split(s[i + 1..], sep)
  }

  lemma SplitWithoutSeparator(s: string, sep: char)
    requires sep !in s
    ensures Split(s, sep) == [s]
  {
  }

  /** Splitting at the first separator. */
  lemma SplitAtFirst(a: string, sep: char, b: string)
    requires sep !in a
    ensures Split(a + [sep] + b, sep) == [a] + Split(b, sep)
  {
    var s := a + [sep] + b;
    var i := IndexOfFrom(s, sep, 0);
    assert s[|a|] == sep;
    assert forall k :: 0 <= k < |a| ==> s[k] == a[k];
    assert i == |a|;
    assert s[..i] == a;
    assert s[i + 1..] == b;
  }

  /** The first piece of a split is the text before the first separator, and there is a
      second piece when a separator follows. */
  lemma SplitFirstPiece(a: string, sep: char, tail: string)
    requires sep !in a && (tail == [] || tail[0] == sep)
    ensures Split(a + tail, sep)[0] == a
    ensures tail != [] ==> |Split(a + tail, sep)| >= 2
  {
    if tail == [] {
      assert a + tail == a;
      SplitWithoutSeparator(a, sep);
    } else {
      assert a + tail == a + [sep] + tail[1..];
      SplitAtFirst(a, sep, tail[1..]);
    }
  }

  /** The white-space and line-terminator characters removed by JavaScript's `trim`. */
  predicate IsWhitespace(c: char)
  {
    || c == ' ' || c == '\t' || c == '\n' || c == '\r' || c == '\U{B}' || c == '\U{C}'
    || c == '\U{A0}' || c == '\U{FEFF}' || c == '\U{1680}' || ('\U{2000}' <= c <= '\U{200A}')
    || c == '\U{2028}' || c == '\U{2029}' || c == '\U{202F}' || c == '\U{205F}' || c == '\U{3000}'
  }

  function TrimStart(s: string): (r: string)
    decreases |s|
    ensures |r| <= |s|
  {
    if s != [] && IsWhitespace(s[0]) then TrimStart(s[1..]) else s
  }

  function TrimEnd(s: string): (r: string)
    decreases |s|
    ensures |r| <= |s|
  {
    if s != [] && IsWhitespace(s[|s| - 1]) then TrimEnd(s[..|s| - 1]) else s
  }

  /** `trimStart` removes a prefix, and what is left does not start with white space. */
  lemma {:induction false} TrimStartShape(s: string)
    ensures var r := TrimStart(s); r == s[|s| - |r|..] && (r == [] || !IsWhitespace(r[0]))
    decreases |s|
  {
    if s != [] && IsWhitespace(s[0]) {
      TrimStartShape(s[1..]);
    }
  }

  /** `trimEnd` removes a suffix, and what is left does not end with white space. */
  lemma {:induction false} TrimEndShape(s: string)
    ensures var r := TrimEnd(s); r == s[..|r|] && (r == [] || !IsWhitespace(r[|r| - 1]))
    decreases |s|
  {
    if s != [] && IsWhitespace(s[|s| - 1]) {
      TrimEndShape(s[..|s| - 1]);
    }
  }

  /** `s.trim()` */
  function Trim(s: string): string
  {
    TrimEnd(TrimStart(s))
  }

  /** `s` has no white space at either end, so `trim` leaves it as it is. */
  predicate IsTrimmed(s: string)
  {
    s == [] || (!IsWhitespace(s[0]) && !IsWhitespace(s[|s| - 1]))
  }

  /** `trim` removes white space and only white space: what it returns has none at either end. */
  lemma TrimIsTrimmed(s: string)
    ensures IsTrimmed(Trim(s))
  {
    var a := TrimStart(s);
    var r := TrimEnd(a);
    TrimStartShape(s);
    TrimEndShape(a);
    if r != [] {
      assert r[0] == a[0];
    }
  }

  lemma TrimOfTrimmed(s: string)
    requires IsTrimmed(s)
    ensures Trim(s) == s
  {
    assert TrimStart(s) == s;
  }

  /** One blank in front of a trimmed string is removed by `trim`. */
  lemma TrimAfterBlank(s: string)
    requires IsTrimmed(s)
    ensures Trim(" " + s) == s
  {
    assert (" " + s)[1..] == s;
    assert TrimStart(" " + s) == TrimStart(s);
    TrimOfTrimmed(s);
  }

  /** `parts.join(sep)` */
  function Join(parts: seq<string>, sep: string): string
  {
    if parts == [] then ""
    else if |parts| == 1 then parts[0]
    else parts[0] + sep + Join(parts[1..], sep)
  }

  function DigitChar(d: nat): char
    requires d < 10
  {
    ['0', '1', '2', '3', '4', '5', '6', '7', '8', '9'][d]
  }

  /** `n.toString()` for a natural number: its decimal digits, without leading zeros. */
  function NatToString(n: nat): (s: string)
    decreases n
    ensures |s| >= 1
    ensures n < 10 <==> |s| == 1
  {
    if n < 10 then [DigitChar(n)] else NatToString(n / 10) + [DigitChar(n % 10)]
  }

  /** Different numbers have different decimal forms. */
  lemma {:induction false} NatToStringInjective(a: nat, b: nat)
    requires NatToString(a) == NatToString(b)
    ensures a == b
    decreases a
  {
    if a >= 10 {
      var sa, sb := NatToString(a), NatToString(b);
      assert sa[..|sa| - 1] == NatToString(a / 10);
      assert sb[..|sb| - 1] == NatToString(b / 10);
      NatToStringInjective(a / 10, b / 10);
      assert sa[|sa| - 1] == DigitChar(a % 10);
      assert sb[|sb| - 1] == DigitChar(b % 10);
    }
  }
}

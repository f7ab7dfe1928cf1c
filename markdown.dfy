/**
 * The metadata block of a note file: an opening `---` line, `key: value` lines and a
 * closing `---` line, followed by the note body (utils/markdown.ts).
 */
module Markdown {
  import opened Wrappers
  import opened Strings

  /** A metadata object: its own keys, in the order `Object.keys` lists them, with their
      values. */
  type Meta = seq<(string, string)>

  datatype ParseError =
    | UnclosedMetadata   // "Files end before metadata is closed"
    | MalformedLine      // "Metadata has empty line or missing wrong syntax"

  datatype Parsed = Parsed(content: string, meta: Meta)

  function Keys(m: Meta): (ks: seq<string>)
    ensures |ks| == |m| && forall i :: 0 <= i < |m| ==> ks[i] == m[i].0
  {
    if m == [] then [] else [m[0].0] + Keys(m[1..])
  }

  predicate DistinctKeys(m: Meta)
  {
    forall i, j :: 0 <= i < j < |m| ==> m[i].0 != m[j].0
  }

  // ---------------------------------------------------------------------------------
  // The order of an object's own keys
  // ---------------------------------------------------------------------------------

  /** The key whose assignment sets an object's prototype instead of storing a property;
      a string value is ignored. */
  const Proto: string := "__proto__"

  predicate AllDigits(s: string)
  {
    s == [] || ('0' <= s[0] <= '9' && AllDigits(s[1..]))
  }

  /** Digit strings of one length compared digit by digit. */
  predicate DigitsLess(a: string, b: string)
    requires |a| == |b|
  {
    a != [] && (a[0] < b[0] || (a[0] == b[0] && DigitsLess(a[1..], b[1..])))
  }

  /** An array index: the decimal form, without leading zeros, of a number below
      2^32 - 1 (4294967295), so that `String(Number(k)) === k`. */
  predicate IsArrayIndex(k: string)
  {
    && k != []
    && AllDigits(k)
    && (k[0] == '0' ==> |k| == 1)
    && (|k| < 10 || (|k| == 10 && DigitsLess(k, "4294967295")))
  }

  /** Array indices in ascending numeric order: a shorter numeral without leading zeros
      denotes a smaller number, and numerals of one length compare digit by digit. */
  predicate IndexLess(a: string, b: string)
  {
    |a| < |b| || (|a| == |b| && DigitsLess(a, b))
  }

  /** Whether `Object.keys` lists `a` before `b` whatever order they were stored in:
      array indices come before every other key, in ascending numeric order. */
  predicate ListedBefore(a: string, b: string)
  {
    IsArrayIndex(a) && (!IsArrayIndex(b) || IndexLess(a, b))
  }

  /** The entries are in an order `Object.keys` can list them in: an array index is
      preceded only by smaller array indices; the other keys follow in the order they
      were stored. */
  predicate InKeyOrder(m: Meta)
  {
    forall i, j {:trigger ListedBefore(m[i].0, m[j].0)} ::
      0 <= i < j < |m| && IsArrayIndex(m[j].0) ==> ListedBefore(m[i].0, m[j].0)
  }

  /** Of two different digit strings of one length, one is the smaller. */
  lemma {:induction false} DigitsLessTotal(a: string, b: string)
    requires |a| == |b| && a != b
    ensures DigitsLess(a, b) || DigitsLess(b, a)
    decreases |a|
  {
    if a[0] == b[0] {
      assert a == [a[0]] + a[1..] && b == [b[0]] + b[1..];
      DigitsLessTotal(a[1..], b[1..]);
    }
  }

  lemma {:induction false} DigitsLessTransitive(a: string, b: string, c: string)
    requires |a| == |b| == |c| && DigitsLess(a, b) && DigitsLess(b, c)
    ensures DigitsLess(a, c)
    decreases |a|
  {
    if a[0] == b[0] == c[0] {
      DigitsLessTransitive(a[1..], b[1..], c[1..]);
    }
  }

  lemma {:induction false} DigitsLessAsymmetric(a: string, b: string)
    requires |a| == |b| && DigitsLess(a, b)
    ensures !DigitsLess(b, a)
    decreases |a|
  {
    if a[0] == b[0] {
      DigitsLessAsymmetric(a[1..], b[1..]);
    }
  }

  /** `Object.keys` never lists two keys each before the other. */
  lemma ListedBeforeAsymmetric(a: string, b: string)
    requires ListedBefore(a, b)
    ensures !ListedBefore(b, a)
  {
    if |a| == |b| && IsArrayIndex(b) {
      DigitsLessAsymmetric(a, b);
    }
  }

  /** Keys `Object.keys` lists in a fixed order are listed in a transitive order. */
  lemma ListedBeforeTransitive(a: string, b: string, c: string)
    requires ListedBefore(a, b) && ListedBefore(b, c)
    ensures ListedBefore(a, c)
  {
    if IsArrayIndex(c) && |a| == |b| == |c| {
      DigitsLessTransitive(a, b, c);
    }
  }

  /** Of two different array indices, `Object.keys` lists one before the other. */
  lemma ListedBeforeTotal(a: string, b: string)
    requires IsArrayIndex(a) && IsArrayIndex(b) && a != b
    ensures ListedBefore(a, b) || ListedBefore(b, a)
  {
    if |a| == |b| {
      DigitsLessTotal(a, b);
    }
  }

  /** `d` times `p`, as repeated addition. */
  function Scale(d: nat, p: nat): nat
  {
    if d == 0 then 0 else p + Scale(d - 1, p)
  }

  /** 10^n. */
  function Pow10(n: nat): (r: nat)
    ensures r >= 1
  {
    if n == 0 then 1 else Scale(10, Pow10(n - 1))
  }

  /** A smaller multiplier falls short of a larger one by at least one `p`. */
  lemma {:induction false} ScaleBelow(x: nat, y: nat, p: nat)
    requires x < y
    ensures Scale(x, p) + p <= Scale(y, p)
    decreases y
  {
    if x + 1 < y {
      ScaleBelow(x, y - 1, p);
    }
  }

  /** The digit a character denotes. */
  function Digit(c: char): nat
    requires '0' <= c <= '9'
  {
    c as int - '0' as int
  }

  /** The number a string of decimal digits denotes. */
  function NumeralValue(s: string): nat
    requires AllDigits(s)
  {
    if s == [] then 0 else Scale(Digit(s[0]), Pow10(|s| - 1)) + NumeralValue(s[1..])
  }

  lemma {:induction false} Pow10Monotonic(m: nat, n: nat)
    requires m <= n
    ensures Pow10(m) <= Pow10(n)
    decreases n
  {
    if m < n {
      Pow10Monotonic(m, n - 1);
    }
  }

  /** A numeral of `n` digits denotes less than 10^n. */
  lemma {:induction false} NumeralBelow(s: string)
    requires AllDigits(s)
    ensures NumeralValue(s) < Pow10(|s|)
    decreases |s|
  {
    if s != [] {
      NumeralBelow(s[1..]);
      var p := Pow10(|s| - 1);
      ScaleBelow(Digit(s[0]), 10, p);
    }
  }

  /** Of two numerals of one length, the one smaller digit by digit denotes less. */
  lemma {:induction false} DigitsLessValue(a: string, b: string)
    requires AllDigits(a) && AllDigits(b) && |a| == |b| && DigitsLess(a, b)
    ensures NumeralValue(a) < NumeralValue(b)
    decreases |a|
  {
    if a[0] < b[0] {
      NumeralBelow(a[1..]);
      ScaleBelow(Digit(a[0]), Digit(b[0]), Pow10(|a| - 1));
    } else {
      DigitsLessValue(a[1..], b[1..]);
    }
  }

  /** Array indices compared as `IndexLess` compares them are compared by the numbers
      they denote: `Object.keys` lists them in ascending numeric order. */
  lemma IndexLessIsNumeric(a: string, b: string)
    requires IsArrayIndex(a) && IsArrayIndex(b)
    ensures IndexLess(a, b) <==> NumeralValue(a) < NumeralValue(b)
  {
    if |a| < |b| {
      IndexBelow(a, b);
    } else if |b| < |a| {
      IndexBelow(b, a);
    } else if a != b {
      DigitsLessTotal(a, b);
      if DigitsLess(a, b) {
        DigitsLessValue(a, b);
        DigitsLessAsymmetric(a, b);
      } else {
        DigitsLessValue(b, a);
        DigitsLessAsymmetric(b, a);
      }
    } else if DigitsLess(a, a) {
      DigitsLessAsymmetric(a, a);
    }
  }

  /** A shorter array index denotes a smaller number. */
  lemma IndexBelow(a: string, b: string)
    requires IsArrayIndex(a) && IsArrayIndex(b) && |a| < |b|
    ensures NumeralValue(a) < NumeralValue(b)
  {
    ShorterNumeralBelow(a, b);
  }

  /** A numeral denotes less than a longer one that does not open with `0`. */
  lemma ShorterNumeralBelow(a: string, b: string)
    requires AllDigits(a) && AllDigits(b) && |a| < |b| && '1' <= b[0]
    ensures NumeralValue(a) < NumeralValue(b)
  {
    NumeralBelow(a);
    Pow10Monotonic(|a|, |b| - 1);
    ScaleBelow(0, Digit(b[0]), Pow10(|b| - 1));
  }

  /** `meta[k]`: the value stored under `k`, if any. */
  function Get(m: Meta, k: string): (r: Option<string>)
    ensures r.None? <==> k !in Keys(m)
    ensures r.Some? ==> (k, r.value) in m
  {
    if m == [] then None else if m[0].0 == k then Some(m[0].1) else Get(m[1..], k)
  }

  /** Assigning to a key: an existing key keeps its position and takes the new value,
      a new key goes last. */
  function Assign(m: Meta, k: string, v: string): (r: Meta)
    ensures k in Keys(m) ==> Keys(r) == Keys(m)
    ensures k !in Keys(m) ==> r == m + [(k, v)]
    ensures Get(r, k) == Some(v)
  {
    if m == [] then [(k, v)]
    else if m[0].0 == k then [(k, v)] + m[1..]
    else [m[0]] + Assign(m[1..], k, v)
  }

  /** The position of a new array index `k`: before the first entry `Object.keys` lists
      after it, or last. */
  function IndexPlace(m: Meta, k: string): (p: nat)
    ensures p <= |m|
    ensures forall t :: 0 <= t < p ==> !ListedBefore(k, m[t].0)
    ensures p < |m| ==> ListedBefore(k, m[p].0)
  {
    if m == [] || ListedBefore(k, m[0].0) then 0
    else
      var p := IndexPlace(m[1..], k);
      assert forall t :: 1 <= t < p + 1 ==> m[t] == m[1..][t - 1];
      1 + p
  }

  /** Adding an array index: it goes before the first entry `Object.keys` lists after it. */
  function InsertIndex(m: Meta, k: string, v: string): (r: Meta)
    ensures |r| == |m| + 1 && multiset(r) == multiset(m) + multiset{(k, v)}
    ensures k !in Keys(m) ==> Get(r, k) == Some(v)
  {
    var p := IndexPlace(m, k);
    assert m == m[..p] + m[p..];
    GetAppend(m[..p] + [(k, v)], m[p..], k);
    GetAppend(m[..p], [(k, v)], k);
    assert k !in Keys(m) ==> k !in Keys(m[..p]) by {
      forall t | 0 <= t < p ensures Keys(m[..p])[t] == Keys(m)[t] {
      }
    }
    m[..p] + [(k, v)] + m[p..]
  }

  /** Looking a key up in two runs of entries: the first run wins. */
  lemma {:induction false} GetAppend(a: Meta, b: Meta, k: string)
    ensures Get(a + b, k) == if k in Keys(a) then Get(a, k) else Get(b, k)
    decreases |a|
  {
    if a != [] {
      assert (a + b)[0] == a[0] && (a + b)[1..] == a[1..] + b;
      assert Keys(a) == [a[0].0] + Keys(a[1..]);
      GetAppend(a[1..], b, k);
    } else {
      assert a + b == b;
    }
  }

  /** `meta[k] = v` on an object: `__proto__` stores nothing, an existing key keeps its
      position, a new array index goes among the array indices in numeric order, and any
      other new key goes last. */
  function Put(m: Meta, k: string, v: string): (r: Meta)
    ensures k == Proto ==> r == m
    ensures k != Proto ==> Get(r, k) == Some(v)
    ensures k != Proto && k in Keys(m) ==> Keys(r) == Keys(m)
    ensures k != Proto && k !in Keys(m) ==> multiset(r) == multiset(m) + multiset{(k, v)}
    ensures k != Proto && k !in Keys(m) && !IsArrayIndex(k) ==> r == m + [(k, v)]
  {
    if k == Proto then m
    else if k !in Keys(m) && IsArrayIndex(k) then InsertIndex(m, k, v)
    else Assign(m, k, v)
  }

  /** What reading the line that starts at position `i` finds. */
  datatype LineKind =
    | Unterminated                                      // no line break ends it
    | Closer(after: nat)                                // a `---` line; the body starts at `after`
    | Malformed                                         // no `:` in it
    | Entry(key: string, value: string, next: nat)      // `key: value`; the next line starts at `next`

  /** One turn of the `while` loop of `parseMarkdownMetadata`: find the end of the line,
      test it for the closer, split it at `:` and trim the value. */
  function ReadLineAt(s: string, i: nat): (r: LineKind)
    requires i < |s|
    ensures r.Closer? ==> i < r.after <= |s| && StartsWith(s[i..], "---")
    ensures r.Entry? ==> i < r.next <= |s| && s[r.next - 1] == '\n'
  {
    var eol := IndexOfFrom(s, '\n', i);
    if eol == -1 then Unterminated
    else
      var line := s[i..eol];
      if StartsWith(line, "---") then Closer(eol + 1)
      else
        var elements := Split(line, ':');
        if |elements| < 2 then Malformed else Entry(elements[0], Trim(elements[1]), eol + 1)
  }

  lemma GetCons(e: (string, string), m: Meta, k: string)
    requires e.0 != k
    ensures Get([e] + m, k) == Get(m, k)
  {
    assert ([e] + m)[1..] == m;
  }

  /** Storing under one key leaves every other key's value as it was. */
  lemma PutOther(m: Meta, k: string, v: string, other: string)
    requires other != k
    ensures Get(Put(m, k, v), other) == Get(m, other)
  {
    if k != Proto {
      if k !in Keys(m) && IsArrayIndex(k) {
        InsertIndexOther(m, k, v, other);
      } else {
        AssignOther(m, k, v, other);
      }
    }
  }

  lemma {:induction false} AssignOther(m: Meta, k: string, v: string, other: string)
    requires other != k
    ensures Get(Assign(m, k, v), other) == Get(m, other)
    decreases |m|
  {
    if m != [] && m[0].0 != k {
      AssignOther(m[1..], k, v, other);
      assert Assign(m, k, v)[1..] == Assign(m[1..], k, v);
    }
  }

  lemma InsertIndexOther(m: Meta, k: string, v: string, other: string)
    requires other != k
    ensures Get(InsertIndex(m, k, v), other) == Get(m, other)
  {
    var p := IndexPlace(m, k);
    assert m == m[..p] + m[p..];
    GetAppend(m[..p] + [(k, v)], m[p..], other);
    GetAppend(m[..p], [(k, v)], other);
    GetAppend(m[..p], m[p..], other);
    assert Keys(m[..p] + [(k, v)]) == Keys(m[..p]) + [k];
  }

  lemma DistinctTail(m: Meta)
    requires m != [] && DistinctKeys(m)
    ensures DistinctKeys(m[1..]) && m[0].0 !in Keys(m[1..])
  {
    forall u | 0 <= u < |m[1..]| ensures Keys(m[1..])[u] != m[0].0 {
      assert m[1..][u] == m[u + 1];
    }
  }

  lemma DistinctCons(e: (string, string), m: Meta)
    requires DistinctKeys(m) && e.0 !in Keys(m)
    ensures DistinctKeys([e] + m)
  {
    forall t | 0 <= t < |m| ensures m[t].0 != e.0 {
      assert Keys(m)[t] == m[t].0;
    }
  }

  /** Storing keeps the keys distinct. */
  lemma PutKeepsDistinct(m: Meta, k: string, v: string)
    requires DistinctKeys(m)
    ensures DistinctKeys(Put(m, k, v))
  {
    if k != Proto {
      if k !in Keys(m) && IsArrayIndex(k) {
        InsertIndexKeepsDistinct(m, k, v);
      } else {
        AssignKeepsDistinct(m, k, v);
      }
    }
  }

  lemma {:induction false} AssignKeepsDistinct(m: Meta, k: string, v: string)
    requires DistinctKeys(m)
    ensures DistinctKeys(Assign(m, k, v))
    decreases |m|
  {
    if m != [] {
      DistinctTail(m);
      if m[0].0 == k {
        assert (k, v).0 !in Keys(m[1..]);
        DistinctCons((k, v), m[1..]);
      } else {
        AssignKeepsDistinct(m[1..], k, v);
        AssignOther(m[1..], k, v, m[0].0);
        DistinctCons(m[0], Assign(m[1..], k, v));
      }
    }
  }

  /** The entries after inserting an array index: those before its place, the new entry,
      then the rest. */
  lemma InsertedAt(m: Meta, k: string, v: string, i: nat)
    requires i <= |m|
    ensures var p := IndexPlace(m, k);
      InsertIndex(m, k, v)[i] == if i < p then m[i] else if i == p then (k, v) else m[i - 1]
  {
    var p := IndexPlace(m, k);
    var r := InsertIndex(m, k, v);
    var before, after := m[..p], m[p..];
    var left := before + [(k, v)];
    assert r == left + after;
    assert |left| == p + 1 && left[p] == (k, v);
    if i <= p {
      assert r[i] == left[i];
      assert i < p ==> left[i] == before[i] == m[i];
    } else {
      assert r[i] == after[i - (p + 1)];
      assert after[i - (p + 1)] == m[i - 1];
    }
  }

  lemma InsertIndexKeepsDistinct(m: Meta, k: string, v: string)
    requires DistinctKeys(m) && k !in Keys(m)
    ensures DistinctKeys(InsertIndex(m, k, v))
  {
    var p := IndexPlace(m, k);
    var r := InsertIndex(m, k, v);
    forall i, j | 0 <= i < j < |r| ensures r[i].0 != r[j].0 {
      InsertedAt(m, k, v, i);
      InsertedAt(m, k, v, j);
      if i == p {
        assert Keys(m)[j - 1] == m[j - 1].0;
      } else if j == p {
        assert Keys(m)[i] == m[i].0;
      }
    }
  }

  /** Storing never adds a `__proto__` entry. */
  lemma PutKeepsNoProto(m: Meta, k: string, v: string)
    requires Proto !in Keys(m)
    ensures Proto !in Keys(Put(m, k, v))
  {
    if k != Proto && k !in Keys(m) {
      var r := Put(m, k, v);
      forall t | 0 <= t < |r| ensures r[t].0 != Proto {
        assert r[t] in multiset(m) + multiset{(k, v)};
      }
    }
  }

  /** Storing keeps the entries in the order `Object.keys` lists them. */
  lemma PutKeepsKeyOrder(m: Meta, k: string, v: string)
    requires DistinctKeys(m) && InKeyOrder(m)
    ensures InKeyOrder(Put(m, k, v))
  {
    if k != Proto {
      if k in Keys(m) {
        var r := Assign(m, k, v);
        assert Keys(r) == Keys(m);
        forall i, j | 0 <= i < j < |r| && IsArrayIndex(r[j].0) ensures ListedBefore(r[i].0, r[j].0) {
          assert r[i].0 == Keys(r)[i] == m[i].0 && r[j].0 == Keys(r)[j] == m[j].0;
        }
      } else if !IsArrayIndex(k) {
        var r := m + [(k, v)];
        forall i, j | 0 <= i < j < |r| && IsArrayIndex(r[j].0) ensures ListedBefore(r[i].0, r[j].0) {
          assert j < |m|;
        }
      } else {
        InsertIndexKeepsKeyOrder(m, k, v);
      }
    }
  }

  lemma InsertIndexKeepsKeyOrder(m: Meta, k: string, v: string)
    requires DistinctKeys(m) && InKeyOrder(m) && IsArrayIndex(k) && k !in Keys(m)
    ensures InKeyOrder(InsertIndex(m, k, v))
  {
    var p := IndexPlace(m, k);
    var r := InsertIndex(m, k, v);
    forall t | 0 <= t < p ensures ListedBefore(m[t].0, k) {
      assert Keys(m)[t] == m[t].0;
      assert !ListedBefore(k, m[t].0);
      ListedBeforeTotal(m[t].0, k);
    }
    forall i, j | 0 <= i < j < |r| && IsArrayIndex(r[j].0) ensures ListedBefore(r[i].0, r[j].0) {
      InsertedAt(m, k, v, i);
      InsertedAt(m, k, v, j);
      if j < p {
        assert ListedBefore(m[i].0, m[j].0);
      } else if i < p && j > p {
        if j - 1 > p {
          assert ListedBefore(m[p].0, m[j - 1].0);
          ListedBeforeTransitive(k, m[p].0, m[j - 1].0);
        }
        ListedBeforeTransitive(m[i].0, k, m[j - 1].0);
      } else if i == p && j - 1 > p {
        assert ListedBefore(m[p].0, m[j - 1].0);
        ListedBeforeTransitive(k, m[p].0, m[j - 1].0);
      } else if i > p {
        assert ListedBefore(m[i - 1].0, m[j - 1].0);
      }
    }
  }

  /** The parser, as a function of the text and the position of the line to read next. */
  function ParseFrom(s: string, i: nat, meta: Meta): Result<Parsed, ParseError>
    requires i <= |s|
    decreases |s| - i
  {
    if i == |s| then Ok(Parsed(s, []))
    else
      match ReadLineAt(s, i)
      case Unterminated => Err(UnclosedMetadata)
      case Closer(after) => Ok(Parsed(s[after..], meta))
      case Malformed => Err(MalformedLine)
      case Entry(k, v, next) => ParseFrom(s, next, Put(meta, k, v))
  }

  /** What `parseMarkdownMetadata(source)` returns or throws. */
  function Parse(source: string): Result<Parsed, ParseError>
  {
    if |source| > 3 && StartsWith(source, "---") then
      var nl := IndexOfFrom(source, '\n', 0);
      if nl == -1 then Ok(Parsed(source, [])) else ParseFrom(source, nl + 1, [])
    else Ok(Parsed(source, []))
  }

  /** `parseMarkdownMetadata`: scans the lines after the opener, filling the metadata
      object in place, until a line starting with `---` closes the block. */
  method ParseMarkdownMetadata(source: string) returns (r: Result<Parsed, ParseError>)
    ensures r == Parse(source)
  {
    if |source| > 3 && StartsWith(source, "---") {
      var meta: Meta := [];
      var currentIndex := IndexOfFrom(source, '\n', 0);
      if currentIndex != -1 {
        currentIndex := currentIndex + 1;
      }
      while currentIndex != -1 && currentIndex < |source|
        invariant currentIndex == -1 || 0 <= currentIndex <= |source|
        invariant currentIndex == -1 ==> Parse(source) == Ok(Parsed(source, []))
        invariant currentIndex != -1 ==> Parse(source) == ParseFrom(source, currentIndex, meta)
        decreases if currentIndex == -1 then 0 else |source| + 1 - currentIndex
      {
        var endOfLineIndex := IndexOfFrom(source, '\n', currentIndex);
        if endOfLineIndex == -1 {
          assert ReadLineAt(source, currentIndex) == Unterminated;
          assert ParseFrom(source, currentIndex, meta) == Err(UnclosedMetadata);
          return Err(UnclosedMetadata);
        }
        var line := source[currentIndex..endOfLineIndex];
        if StartsWith(line, "---") {
          assert ReadLineAt(source, currentIndex) == Closer(endOfLineIndex + 1);
          assert ParseFrom(source, currentIndex, meta) == Ok(Parsed(source[endOfLineIndex + 1..], meta));
          return Ok(Parsed(source[endOfLineIndex + 1..], meta));
        }
        var elements := Split(line, ':');
        if |elements| < 2 {
          assert ReadLineAt(source, currentIndex) == Malformed;
          assert ParseFrom(source, currentIndex, meta) == Err(MalformedLine);
          return Err(MalformedLine);
        }
        assert ReadLineAt(source, currentIndex) == Entry(elements[0], Trim(elements[1]), endOfLineIndex + 1);
        EntryStep(source, currentIndex, meta, elements[0], Trim(elements[1]), endOfLineIndex + 1);
        meta := Put(meta, elements[0], Trim(elements[1]));
        currentIndex := endOfLineIndex + 1;
      }
    }
    return Ok(Parsed(source, []));
  }

  /** The `key: value` line written for one metadata entry. */
  function Line(e: (string, string)): string
  {
    e.0 + ": " + e.1 + "\n"
  }

  /** The metadata lines, in key order. */
  function MetaLines(m: Meta): string
  {
    if m == [] then "" else MetaLines(m[..|m| - 1]) + Line(m[|m| - 1])
  }

  /** What `generateMarkdownWithMetadata(content, metadata)` returns. */
  function Generate(content: string, m: Meta): string
  {
    if m == [] then content else "---\n" + MetaLines(m) + "---\n" + content
  }

  /** `generateMarkdownWithMetadata`: appends one line per key, in key order. */
  method GenerateMarkdownWithMetadata(content: string, metadata: Meta) returns (r: string)
    ensures r == Generate(content, metadata)
  {
    if |metadata| == 0 {
      return content;
    }
    var result := "---\n";
    var i := 0;
    while i < |metadata|
      invariant 0 <= i <= |metadata|
      invariant result == "---\n" + MetaLines(metadata[..i])
    {
      assert metadata[..i + 1][..i] == metadata[..i];
      result := result + Line(metadata[i]);
      i := i + 1;
    }
    assert metadata[..i] == metadata;
    result := result + "---\n" + content;
    return result;
  }

  // ---------------------------------------------------------------------------------
  // Properties of the parser
  // ---------------------------------------------------------------------------------

  /** Text that does not open with `---`, or is at most three characters long, is all body. */
  lemma NoOpenerIsAllContent(s: string)
    requires |s| <= 3 || !StartsWith(s, "---")
    ensures Parse(s) == Ok(Parsed(s, []))
  {
  }

  /** An opener line that the text never ends is no block either. */
  lemma OpenerWithoutNewlineIsAllContent(s: string)
    requires StartsWith(s, "---") && '\n' !in s
    ensures Parse(s) == Ok(Parsed(s, []))
  {
    if |s| > 3 {
      assert IndexOfFrom(s, '\n', 0) == -1;
    }
  }

  /** A successful parse keeps the keys distinct, in `Object.keys` order and without
      `__proto__`, and its body is a suffix of the text. */
  lemma {:induction false} ParseFromSound(s: string, i: nat, meta: Meta, p: Parsed)
    requires i <= |s| && DistinctKeys(meta) && InKeyOrder(meta) && Proto !in Keys(meta)
    requires ParseFrom(s, i, meta) == Ok(p)
    ensures DistinctKeys(p.meta) && InKeyOrder(p.meta) && Proto !in Keys(p.meta)
    ensures |p.content| <= |s| && p.content == s[|s| - |p.content|..]
    decreases |s| - i
  {
    if i < |s| {
      match ReadLineAt(s, i)
      case Entry(k, v, next) =>
        PutKeepsDistinct(meta, k, v);
        PutKeepsKeyOrder(meta, k, v);
        PutKeepsNoProto(meta, k, v);
        ParseFromSound(s, next, Put(meta, k, v), p);
      case Closer(after) =>
        assert |s[after..]| == |s| - after;
      case Unterminated =>
      case Malformed =>
    }
  }

  /** Whatever text `parseMarkdownMetadata` accepts, its metadata has distinct keys, listed
      in `Object.keys` order, none of them `__proto__`, and its body is the text itself or
      a suffix of it. */
  lemma ParseSound(source: string, p: Parsed)
    requires Parse(source) == Ok(p)
    ensures DistinctKeys(p.meta) && InKeyOrder(p.meta) && Proto !in Keys(p.meta)
    ensures |p.content| <= |source| && p.content == source[|source| - |p.content|..]
  {
    var nl := IndexOfFrom(source, '\n', 0);
    if |source| > 3 && StartsWith(source, "---") && nl != -1 {
      var start := nl + 1;
      assert Parse(source) == ParseFrom(source, start, []);
      ParseFromSound(source, start, [], p);
    } else {
      assert p == Parsed(source, []);
      assert source[0..] == source;
    }
  }

  /** A key or value written into a metadata line: no separator and no line break in it. */
  predicate Plain(t: string)
  {
    ':' !in t && '\n' !in t
  }

  /** Metadata that survives a trip through its text form: distinct plain keys that do not
      open with `---`, and plain values without surrounding white space. */
  predicate WellFormed(m: Meta)
  {
    && DistinctKeys(m)
    && InKeyOrder(m)
    && forall i :: 0 <= i < |m| ==>
         Plain(m[i].0) && !StartsWith(m[i].0, "---") && m[i].0 != Proto && Plain(m[i].1) && IsTrimmed(m[i].1)
  }

  /** Concatenation regroups. */
  lemma ConcatAssoc(x: string, y: string, z: string)
    ensures (x + y) + z == x + (y + z)
  {
  }

  lemma MetaLinesCons(m: Meta)
    requires m != []
    ensures MetaLines(m) == Line(m[0]) + MetaLines(m[1..])
    decreases |m|
  {
    if |m| > 1 {
      var init, tail := m[..|m| - 1], m[1..];
      MetaLinesCons(init);
      assert init[1..] == tail[..|tail| - 1] && init[0] == m[0] && tail[|tail| - 1] == m[|m| - 1];
      var x, y, z := Line(m[0]), MetaLines(init[1..]), Line(m[|m| - 1]);
      assert MetaLines(init) == x + y;
      assert MetaLines(m) == MetaLines(init) + z;
      assert MetaLines(tail) == y + z;
      ConcatAssoc(x, y, z);
    } else {
      assert m[..|m| - 1] == [];
      assert m[1..] == [];
    }
  }

  /** Reading one generated line: it ends at its own line break, does not close the block,
      and splits into the key and the blank-prefixed value. */
  lemma ReadLine(s: string, i: nat, k: string, v: string)
    requires Plain(k) && !StartsWith(k, "---") && Plain(v) && IsTrimmed(v)
    requires i + |Line((k, v))| <= |s| && s[i..i + |Line((k, v))|] == Line((k, v))
    ensures IndexOfFrom(s, '\n', i) == i + |k| + 2 + |v|
    ensures s[i..i + |k| + 2 + |v|] == k + ": " + v
  {
    var eol := i + |k| + 2 + |v|;
    var line := s[i..eol];
    assert line == s[i..i + |Line((k, v))|][..|k| + 2 + |v|];
    assert line == k + ": " + v;
    assert '\n' !in line by {
      assert line == k + [':', ' '] + v;
    }
    assert s[eol] == s[i..i + |Line((k, v))|][|k| + 2 + |v|];
    LineBreakAt(s, i, eol);
  }

  /** A generated line does not close the block. */
  lemma LineIsNotCloser(k: string, v: string)
    requires !StartsWith(k, "---")
    ensures !StartsWith(k + ": " + v, "---")
  {
    var line := k + ": " + v;
    if |k| >= 3 {
      assert line[..3] == k[..3];
    } else if |line| >= 3 {
      assert line[|k|] == ':';
    }
  }

  /** A generated line splits into the key and the blank-prefixed value, which trims
      back to the value. */
  lemma SplitLine(k: string, v: string)
    requires Plain(k) && Plain(v) && IsTrimmed(v)
    ensures Split(k + ": " + v, ':') == [k, " " + v]
    ensures Trim(" " + v) == v
  {
    assert k + ": " + v == k + [':'] + (" " + v);
    SplitAtFirst(k, ':', " " + v);
    assert ':' !in " " + v;
    SplitWithoutSeparator(" " + v, ':');
    TrimAfterBlank(v);
  }

  /** The next line break at or after `i` is at `eol` when `s[i..eol]` holds none. */
  lemma LineBreakAt(s: string, i: nat, eol: nat)
    requires i <= eol < |s| && s[eol] == '\n' && '\n' !in s[i..eol]
    ensures IndexOfFrom(s, '\n', i) == eol
  {
    assert forall j :: i <= j < eol ==> s[j] == s[i..eol][j - i];
  }

  /** Reading one generated line gives back its entry and moves past its line break. */
  lemma ReadGeneratedLine(s: string, i: nat, k: string, v: string)
    requires Plain(k) && !StartsWith(k, "---") && Plain(v) && IsTrimmed(v)
    requires i + |Line((k, v))| <= |s| && s[i..i + |Line((k, v))|] == Line((k, v))
    ensures ReadLineAt(s, i) == Entry(k, v, i + |Line((k, v))|)
  {
    ReadLine(s, i, k, v);
    SplitLine(k, v);
    LineIsNotCloser(k, v);
  }

  /** In well-formed metadata each key is new to the entries before it, so storing it
      extends the prefix by one entry. */
  lemma PutNext(m: Meta, j: nat)
    requires WellFormed(m) && j < |m|
    ensures Put(m[..j], m[j].0, m[j].1) == m[..j + 1]
  {
    var k := m[j].0;
    forall t | 0 <= t < j ensures Keys(m[..j])[t] != k {
    }
    assert m[..j + 1] == m[..j] + [(k, m[j].1)];
    if IsArrayIndex(k) {
      forall t | 0 <= t < j ensures !ListedBefore(k, m[..j][t].0) {
        ListedBeforeAsymmetric(m[t].0, k);
      }
      assert IndexPlace(m[..j], k) == j;
      assert m[..j][..j] == m[..j] && m[..j][j..] == [];
    }
  }

  /** Parsing the generated lines of the entries from `j` on, with the entries before `j`
      already collected, collects them all, whatever follows the lines. */
  lemma {:induction false} ParseGeneratedLines(s: string, i: nat, m: Meta, j: nat, end: nat)
    requires WellFormed(m) && j <= |m|
    requires end == i + |MetaLines(m[j..])| <= |s| && s[i..end] == MetaLines(m[j..])
    ensures ParseFrom(s, i, m[..j]) == ParseFrom(s, end, m)
    decreases |m| - j
  {
    if j == |m| {
      assert m[..j] == m && m[j..] == [];
    } else {
      var next := i + |Line(m[j])|;
      SplitGeneratedLines(s, i, m, j, next, end);
      StoreGeneratedLine(s, i, m[..j], m[j].0, m[j].1, next);
      PutNext(m, j);
      ParseGeneratedLines(s, next, m, j + 1, end);
    }
  }

  /** The generated lines of the entries from `j` on are the line of entry `j` followed
      by the lines of the entries after it. */
  lemma SplitGeneratedLines(s: string, i: nat, m: Meta, j: nat, next: nat, end: nat)
    requires j < |m| && next == i + |Line(m[j])|
    requires end == i + |MetaLines(m[j..])| <= |s| && s[i..end] == MetaLines(m[j..])
    ensures next + |MetaLines(m[j + 1..])| == end
    ensures s[i..next] == Line((m[j].0, m[j].1))
    ensures s[next..end] == MetaLines(m[j + 1..])
  {
    var rest := m[j..];
    MetaLinesCons(rest);
    assert rest[0] == m[j] && rest[1..] == m[j + 1..];
    var n := |Line(m[j])|;
    var block := s[i..end];
    assert block == Line(m[j]) + MetaLines(m[j + 1..]);
    assert s[i..i + n] == block[..n];
    assert s[i + n..end] == block[n..];
  }

  /** Text that opens with the opener and generated lines has the entries collected when
      the parser reaches what follows the lines, at `end`. */
  lemma ParseGeneratedBlock(s: string, m: Meta, end: nat)
    requires WellFormed(m)
    requires end == 4 + |MetaLines(m)| <= |s| && s[..end] == "---\n" + MetaLines(m)
    ensures Parse(s) == ParseFrom(s, end, m)
  {
    var lines := MetaLines(m);
    assert s[0] == '-' && s[1] == '-' && s[2] == '-' && s[3] == '\n' by {
      assert s[..end][0] == '-' && s[..end][3] == '\n';
      assert s[..end][1] == '-' && s[..end][2] == '-';
    }
    assert s[..3] == "---";
    assert IndexOfFrom(s, '\n', 0) == 3;
    assert s[4..end] == lines by {
      assert s[4..end] == s[..end][4..];
    }
    assert m[..0] == [] && m[0..] == m;
    ParseGeneratedLines(s, 4, m, 0, end);
  }

  /** The line at `j` ends at the first line break after it. */
  lemma ReadLineBreak(s: string, j: nat, line: string, rest: string)
    requires '\n' !in line
    requires j <= |s| && s[j..] == line + "\n" + rest
    ensures j + |line| < |s| && IndexOfFrom(s, '\n', j) == j + |line|
    ensures s[j..j + |line|] == line
  {
    var eol := j + |line|;
    assert s[eol] == (line + "\n" + rest)[|line|];
    assert s[j..eol] == line by {
      assert s[j..eol] == s[j..][..|line|];
    }
    LineBreakAt(s, j, eol);
  }

  /** A line starting with `---` closes the block; the body starts after its line break. */
  lemma ReadCloser(s: string, j: nat, line: string, rest: string)
    requires StartsWith(line, "---") && '\n' !in line
    requires j <= |s| && s[j..] == line + "\n" + rest
    ensures ReadLineAt(s, j) == Closer(j + |line| + 1)
  {
    ReadLineBreak(s, j, line, rest);
  }

  /** Parsing stops at the first line that starts with `---`: the body is all the text
      after that line, and the metadata is what was collected before it. */
  lemma ClosingLineEndsBlock(s: string, j: nat, meta: Meta, line: string, rest: string)
    requires StartsWith(line, "---") && '\n' !in line
    requires j <= |s| && s[j..] == line + "\n" + rest
    ensures ParseFrom(s, j, meta) == Ok(Parsed(rest, meta))
  {
    ReadCloser(s, j, line, rest);
    var after := j + |line| + 1;
    assert s[after..] == rest by {
      assert s[after..] == s[j..][|line| + 1..];
    }
  }

  /** A last line without a line break leaves the block unclosed. */
  lemma ReadUnterminated(s: string, j: nat)
    requires j < |s| && '\n' !in s[j..]
    ensures ReadLineAt(s, j) == Unterminated
  {
    forall t | j <= t < |s| ensures s[t] != '\n' {
      assert s[t] == s[j..][t - j];
    }
  }

  /** A line with no `:` that does not start with `---` is malformed. */
  lemma ReadMalformed(s: string, j: nat, line: string, rest: string)
    requires ':' !in line && '\n' !in line && !StartsWith(line, "---")
    requires j <= |s| && s[j..] == line + "\n" + rest
    ensures ReadLineAt(s, j) == Malformed
  {
    ReadLineBreak(s, j, line, rest);
    SplitWithoutSeparator(line, ':');
  }

  /** A line `key:value` or `key:value:more` stores the untrimmed `key` with the trimmed
      `value`: the text before the first `:`, and the text between the first and the second. */
  lemma ReadEntry(s: string, j: nat, key: string, value: string, more: string, rest: string,
                  next: nat)
    requires ':' !in key && ':' !in value && (more == [] || more[0] == ':')
    requires '\n' !in key + ":" + value + more && !StartsWith(key + ":" + value + more, "---")
    requires j <= |s| && s[j..] == key + ":" + value + more + "\n" + rest
    requires next == j + |key + ":" + value + more| + 1
    ensures ReadLineAt(s, j) == Entry(key, Trim(value), next)
  {
    var line := key + ":" + value + more;
    ReadLineBreak(s, j, line, rest);
    assert line == key + [':'] + (value + more);
    SplitAtFirst(key, ':', value + more);
    SplitFirstPiece(value, ':', more);
    var elements := Split(line, ':');
    assert elements == [key] + Split(value + more, ':');
    assert |elements| >= 2 && elements[0] == key && elements[1] == value;
    var eol := IndexOfFrom(s, '\n', j);
    assert eol == next - 1 && s[j..eol] == line;
  }

  /** Reading an entry line stores its entry, overwriting an earlier value of the same key,
      and goes on with the next line. */
  lemma EntryLineStored(s: string, j: nat, meta: Meta, key: string, value: string, more: string,
                        rest: string, next: nat)
    requires ':' !in key && ':' !in value && (more == [] || more[0] == ':')
    requires '\n' !in key + ":" + value + more && !StartsWith(key + ":" + value + more, "---")
    requires j <= |s| && s[j..] == key + ":" + value + more + "\n" + rest
    requires next == j + |key + ":" + value + more| + 1
    ensures next <= |s|
    ensures ParseFrom(s, j, meta) == ParseFrom(s, next, Put(meta, key, Trim(value)))
    ensures key != Proto ==> Get(Put(meta, key, Trim(value)), key) == Some(Trim(value))
    ensures key == Proto ==> ParseFrom(s, j, meta) == ParseFrom(s, next, meta)
  {
    ReadEntry(s, j, key, value, more, rest, next);
  }

  /** The round trip: parsing generated text gives back the body and the metadata. */
  lemma RoundTrip(content: string, m: Meta)
    requires m != [] && WellFormed(m)
    ensures Parse(Generate(content, m)) == Ok(Parsed(content, m))
  {
    var s := Generate(content, m);
    var end := 4 + |MetaLines(m)|;
    GeneratedParts(s, content, m, end);
    ParseGeneratedBlock(s, m, end);
    ClosingLineEndsBlock(s, end, m, "---", content);
  }

  /** Generated text is the opener and the lines up to `end`, then the closer and the body. */
  lemma GeneratedParts(s: string, content: string, m: Meta, end: nat)
    requires m != [] && s == Generate(content, m) && end == 4 + |MetaLines(m)|
    ensures end + 4 + |content| == |s|
    ensures s[..end] == "---\n" + MetaLines(m) && s[end..] == "---" + "\n" + content
  {
    var head, tail := "---\n" + MetaLines(m), "---\n" + content;
    assert Generate(content, m) == head + tail;
    assert |head| == end;
  }

  /** An array index has neither a separator nor a line break, and does not open with
      `---`. */
  lemma {:induction false} IndexIsPlain(n: string)
    requires AllDigits(n)
    ensures Plain(n) && !StartsWith(n, "---")
    decreases |n|
  {
    if n != [] {
      IndexIsPlain(n[1..]);
      assert n == [n[0]] + n[1..];
    }
  }

  /** Reading a generated line stores its entry and moves to the next line. */
  lemma {:induction false} StoreGeneratedLine(s: string, i: nat, meta: Meta, k: string, v: string, next: nat)
    requires Plain(k) && !StartsWith(k, "---") && Plain(v) && IsTrimmed(v)
    requires next == i + |Line((k, v))| <= |s| && s[i..next] == Line((k, v))
    ensures ParseFrom(s, i, meta) == ParseFrom(s, next, Put(meta, k, v))
  {
    ReadGeneratedLine(s, i, k, v);
    EntryStep(s, i, meta, k, v, next);
  }

  /** One turn of the loop over an entry line: its value is stored and parsing carries
      on at the next line. */
  lemma {:induction false} EntryStep(s: string, i: nat, meta: Meta, k: string, v: string, next: nat)
    requires i < |s| && ReadLineAt(s, i) == Entry(k, v, next)
    ensures ParseFrom(s, i, meta) == ParseFrom(s, next, Put(meta, k, v))
  {
  }

  /** The layout of a text with an opener, two lines, a closer and a body (for the
      ParseTwoLines example). */
  lemma TwoLineLayout(a: string, b: string, body: string)
    ensures var s := "---\n" + a + b + "---\n" + body;
      && s[4..4 + |a|] == a && s[4 + |a|..4 + |a| + |b|] == b
      && s[4 + |a| + |b|..] == "---" + "\n" + body
      && |s| == 8 + |a| + |b| + |body|
      && |s| > 3 && StartsWith(s, "---") && IndexOfFrom(s, '\n', 0) == 3
  {
    var s := "---\n" + a + b + "---\n" + body;
    assert s == "---\n" + (a + (b + ("---\n" + body)));
    assert s[..3] == "---" && s[3] == '\n';
  }

  /** Example, an instance of EntryLineStored: text with two generated lines stores the
      first entry, then the second. */
  lemma ParseTwoLines(k: string, x: string, n: string, y: string, body: string)
    requires Plain(k) && !StartsWith(k, "---") && Plain(x) && IsTrimmed(x)
    requires Plain(n) && !StartsWith(n, "---") && Plain(y) && IsTrimmed(y)
    ensures Parse("---\n" + Line((k, x)) + Line((n, y)) + "---\n" + body)
              == Ok(Parsed(body, Put(Put([], k, x), n, y)))
  {
    var s := "---\n" + Line((k, x)) + Line((n, y)) + "---\n" + body;
    var j, c := 4 + |Line((k, x))|, 4 + |Line((k, x))| + |Line((n, y))|;
    TwoLineLayout(Line((k, x)), Line((n, y)), body);
    TwoLinesStored(s, k, x, n, y, j, c);
    ClosingLineEndsBlock(s, c, Put(Put([], k, x), n, y), "---", body);
  }

  /** Two generated lines from position 4 on store their entries in order (for the
      ParseTwoLines example). */
  lemma {:induction false} TwoLinesStored(s: string, k: string, x: string, n: string, y: string, j: nat, c: nat)
    requires Plain(k) && !StartsWith(k, "---") && Plain(x) && IsTrimmed(x)
    requires Plain(n) && !StartsWith(n, "---") && Plain(y) && IsTrimmed(y)
    requires j == 4 + |Line((k, x))| && c == j + |Line((n, y))| <= |s|
    requires s[4..j] == Line((k, x)) && s[j..c] == Line((n, y))
    ensures ParseFrom(s, 4, []) == ParseFrom(s, c, Put(Put([], k, x), n, y))
  {
    StoreGeneratedLine(s, 4, [], k, x, j);
    StoreGeneratedLine(s, j, Put([], k, x), n, y, c);
  }

  /** Example, an instance of PutIndexBeforeNamed: an array-index key read after another
      key comes first in the metadata, as
      `Object.keys` lists it: `b: x` then `1: y` gives the keys `1`, `b`. */
  lemma IndexKeyListedFirst(k: string, x: string, n: string, y: string, body: string)
    requires Plain(k) && !StartsWith(k, "---") && k != Proto && !IsArrayIndex(k)
    requires IsArrayIndex(n) && Plain(x) && IsTrimmed(x) && Plain(y) && IsTrimmed(y)
    ensures Parse("---\n" + Line((k, x)) + Line((n, y)) + "---\n" + body)
              == Ok(Parsed(body, [(n, y), (k, x)]))
  {
    IndexIsPlain(n);
    ParseTwoLines(k, x, n, y, body);
    PutIndexAfterNamed(k, x, n, y);
  }

  /** Storing a key and then an array index lists the array index first. */
  lemma PutIndexAfterNamed(k: string, x: string, n: string, y: string)
    requires k != Proto && !IsArrayIndex(k) && IsArrayIndex(n)
    ensures Put(Put([], k, x), n, y) == [(n, y), (k, x)]
  {
    assert Put([], k, x) == [(k, x)];
    assert n != k && Keys([(k, x)]) == [k];
    PutIndexBeforeNamed([(k, x)], n, y);
    assert [(n, y)] + [(k, x)] == [(n, y), (k, x)];
  }

  /** A new array index stored into metadata that opens with another key goes first. */
  lemma PutIndexBeforeNamed(m: Meta, n: string, y: string)
    requires m != [] && !IsArrayIndex(m[0].0) && IsArrayIndex(n)
    ensures n !in Keys(m) ==> Put(m, n, y) == [(n, y)] + m
  {
    assert IndexPlace(m, n) == 0;
    assert m[..0] == [] && m[0..] == m;
  }

  /** A block whose lines run to the very end of the text, without a closing line,
      leaves the whole text as body and no metadata. */
  lemma BlockEndingAtEndOfTextIsAllContent(m: Meta)
    requires WellFormed(m)
    ensures Parse("---\n" + MetaLines(m)) == Ok(Parsed("---\n" + MetaLines(m), []))
  {
    var s := "---\n" + MetaLines(m);
    assert s[..|s|] == s;
    ParseGeneratedBlock(s, m, |s|);
  }

  /** A block still open when the last line of the text has no line break fails. */
  lemma UnterminatedLineFails(m: Meta, last: string)
    requires WellFormed(m) && last != [] && '\n' !in last
    ensures Parse("---\n" + MetaLines(m) + last) == Err(UnclosedMetadata)
  {
    var s := "---\n" + MetaLines(m) + last;
    var end := 4 + |MetaLines(m)|;
    assert s[..end] == "---\n" + MetaLines(m);
    assert s[end..] == last;
    ParseGeneratedBlock(s, m, end);
    ReadUnterminated(s, end);
  }

  /** A block line with no `:` that does not close the block fails. */
  lemma LineWithoutColonFails(m: Meta, line: string, rest: string)
    requires WellFormed(m) && ':' !in line && '\n' !in line && !StartsWith(line, "---")
    ensures Parse("---\n" + MetaLines(m) + line + "\n" + rest) == Err(MalformedLine)
  {
    var s := "---\n" + MetaLines(m) + line + "\n" + rest;
    var end := 4 + |MetaLines(m)|;
    assert s[..end] == "---\n" + MetaLines(m);
    assert s[end..] == line + "\n" + rest;
    ParseGeneratedBlock(s, m, end);
    ReadMalformed(s, end, line, rest);
  }
}

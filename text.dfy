/**
 * The string primitives app.js relies on: String.prototype.trim, split on the
 * regular expression /\s+/, Array.prototype.join, and the decimal rendering of
 * a button index inside a template literal.
 */
module Text {

  /** The characters JavaScript's `trim` strips and `\s` matches: the
      ECMAScript WhiteSpace and LineTerminator productions. */
  const WHITESPACE: set<char> := {
    '\t', '\n', '\U{000B}', '\U{000C}', '\r', ' ', '\U{00A0}', '\U{1680}',
    '\U{2000}', '\U{2001}', '\U{2002}', '\U{2003}', '\U{2004}', '\U{2005}',
    '\U{2006}', '\U{2007}', '\U{2008}', '\U{2009}', '\U{200A}',
    '\U{2028}', '\U{2029}', '\U{202F}', '\U{205F}', '\U{3000}', '\U{FEFF}'
  }

  predicate IsSpace(c: char) {
    c in WHITESPACE
  }

  predicate AllSpace(s: string) {
    forall k :: 0 <= k < |s| ==> IsSpace(s[k])
  }

  predicate NoSpace(s: string) {
    forall k :: 0 <= k < |s| ==> !IsSpace(s[k])
  }

  /** The first index at or after `i` that does not hold whitespace (or |s|). */
  function SkipSpaces(s: string, i: nat): (j: nat)
    requires i <= |s|
    ensures i <= j <= |s|
    ensures forall k :: i <= k < j ==> IsSpace(s[k])
    ensures j < |s| ==> !IsSpace(s[j])
    decreases |s| - i
  {
    if i == |s| || !IsSpace(s[i]) then i else SkipSpaces(s, i + 1)
  }

  /** The index just past the last non-whitespace character of `s[i..j]`
      (or `i` when there is none). */
  function BackSpaces(s: string, i: nat, j: nat): (e: nat)
    requires i <= j <= |s|
    ensures i <= e <= j
    ensures forall k :: e <= k < j ==> IsSpace(s[k])
    ensures e > i ==> !IsSpace(s[e - 1])
    decreases j
  {
    if j == i || !IsSpace(s[j - 1]) then j else BackSpaces(s, i, j - 1)
  }

  /** `s.trimStart()`: the suffix left after dropping leading whitespace. */
  function TrimStart(s: string): (r: string)
    ensures |r| <= |s| && r == s[|s| - |r|..]
    ensures forall k :: 0 <= k < |s| - |r| ==> IsSpace(s[k])
    ensures r == [] || !IsSpace(r[0])
  {
    s[SkipSpaces(s, 0)..]
  }

  /** `s.trim()`: starts and ends with non-whitespace, and is empty exactly
      when `s` is all whitespace. */
  function Trim(s: string): (r: string)
    ensures |r| <= |s|
    ensures r == [] || (!IsSpace(r[0]) && !IsSpace(r[|r| - 1]))
    ensures r == [] <==> AllSpace(s)
  {
    var i := SkipSpaces(s, 0);
    s[i..BackSpaces(s, i, |s|)]
  }

  /** What `trim` keeps is the infix of `s` between a leading and a trailing
      whitespace run. */
  lemma TrimInfix(s: string)
    ensures var i, r := SkipSpaces(s, 0), Trim(s);
            && i + |r| <= |s| && r == s[i..i + |r|]
            && (forall k :: 0 <= k < i ==> IsSpace(s[k]))
            && (forall k :: i + |r| <= k < |s| ==> IsSpace(s[k]))
  {
  }

  lemma {:induction false} TrimIdempotent(s: string)
    ensures Trim(Trim(s)) == Trim(s)
  {
    var r := Trim(s);
    if r != [] {
      assert SkipSpaces(r, 0) == 0;
      assert BackSpaces(r, 0, |r|) == |r|;
      assert r[0..|r|] == r;
    }
  }

  /** Number of leading non-whitespace characters of `s`. */
  function WordLength(s: string): (n: nat)
    ensures n <= |s|
    ensures forall k :: 0 <= k < n ==> !IsSpace(s[k])
    ensures n < |s| ==> IsSpace(s[n])
  {
    if s == [] || IsSpace(s[0]) then 0 else 1 + WordLength(s[1..])
  }

  /** `s.split(/\s+/)`: the pieces between maximal whitespace runs. Leading
      whitespace yields an empty first piece, trailing whitespace an empty
      last piece, and the empty string yields `[""]`. */
  function Fields(s: string): (r: seq<string>)
    ensures |r| >= 1
    ensures forall i :: 0 <= i < |r| ==> NoSpace(r[i])
    decreases |s|
  {
    var n := WordLength(s);
    if n == |s| then [s]
    else
      var rest := TrimStart(s[n..]);
      [s[..n]] + Fields(rest)
  }

  /** `words.join(sep)`. */
  function Join(words: seq<string>, sep: string): string
  {
    if |words| == 0 then ""
    else if |words| == 1 then words[0]
    else words[0] + sep + Join(words[1..], sep)
  }

  /** Reference definition: every maximal whitespace run replaced by one space. */
  function Collapse(s: string): string
    decreases |s|
  {
    if s == [] then []
    else if IsSpace(s[0]) then [' '] + Collapse(TrimStart(s))
    else [s[0]] + Collapse(s[1..])
  }

  lemma {:induction false} CollapseWord(w: string, s: string)
    requires NoSpace(w)
    ensures Collapse(w + s) == w + Collapse(s)
    decreases |w|
  {
    if w == [] {
      assert w + s == s;
    } else {
      assert (w + s)[0] == w[0] && (w + s)[1..] == w[1..] + s;
      CollapseWord(w[1..], s);
      assert w == [w[0]] + w[1..];
    }
  }

  /** Splitting on /\s+/ and joining with one space collapses each whitespace
      run to a single space and keeps every other character in order. */
  lemma {:induction false} JoinFieldsIsCollapse(s: string)
    ensures Join(Fields(s), " ") == Collapse(s)
    decreases |s|
  {
    var n := WordLength(s);
    var w := s[..n];
    if n == |s| {
      JoinFieldsOneWord(s);
    } else {
      var tail := s[n..];
      var rest := TrimStart(tail);
      FieldsStep(s, n, rest);
      JoinFieldsIsCollapse(rest);
      JoinFieldsCons(s, n, rest);
    }
  }

  lemma JoinFieldsCons(s: string, n: nat, rest: string)
    requires n == WordLength(s) < |s| && rest == TrimStart(s[n..])
    requires Join(Fields(rest), " ") == Collapse(rest)
    ensures Join(Fields(s), " ") == Collapse(s)
  {
    FieldsStep(s, n, rest);
    CollapseSplit(s, n);
    SpacedConcat(Join(Fields(s), " "), Collapse(s), s[..n], Collapse(rest));
  }

  lemma SpacedConcat(j: string, k: string, w: string, c: string)
    requires j == w + " " + c && k == w + (" " + c)
    ensures j == k
  {
  }

  lemma CollapseSplit(s: string, n: nat)
    requires n <= |s| && forall k :: 0 <= k < n ==> !IsSpace(s[k])
    ensures Collapse(s) == s[..n] + Collapse(s[n..])
  {
    assert NoSpace(s[..n]);
    CollapseWord(s[..n], s[n..]);
    assert s[..n] + s[n..] == s;
  }

  lemma JoinFieldsOneWord(s: string)
    requires WordLength(s) == |s|
    ensures Join(Fields(s), " ") == Collapse(s)
  {
    assert s + [] == s;
    CollapseWord(s, []);
  }

  lemma FieldsStep(s: string, n: nat, rest: string)
    requires n == WordLength(s) < |s| && rest == TrimStart(s[n..])
    ensures Join(Fields(s), " ") == s[..n] + " " + Join(Fields(rest), " ")
    ensures Collapse(s[n..]) == " " + Collapse(rest)
    ensures |rest| < |s| - n
  {
    var fs := Fields(rest);
    assert Fields(s) == [s[..n]] + fs;
    assert ([s[..n]] + fs)[1..] == fs;
  }

  /** A string with no whitespace at either end has no empty piece. */
  lemma {:induction false} FieldsOfTrimmedNonEmpty(s: string)
    requires s != [] && !IsSpace(s[0]) && !IsSpace(s[|s| - 1])
    ensures forall i :: 0 <= i < |Fields(s)| ==> Fields(s)[i] != ""
    decreases |s|
  {
    var n := WordLength(s);
    if n < |s| {
      var rest := TrimStart(s[n..]);
      assert rest != [] && rest[|rest| - 1] == s[|s| - 1];
      FieldsOfTrimmedNonEmpty(rest);
      assert Fields(s) == [s[..n]] + Fields(rest);
    }
  }

  function DigitChar(d: nat): (c: char)
    requires d < 10
    ensures '0' <= c <= '9' && c as int == '0' as int + d
  {
    ('0' as int + d) as char
  }

  function DigitValue(c: char): nat
  {
    if '0' <= c <= '9' then (c as int - '0' as int) as nat else 0
  }

  /** The decimal rendering of a non-negative integer, as `${n}` produces it:
      digits only, with no leading zero except for 0 itself. */
  function Decimal(n: nat): (s: string)
    ensures |s| >= 1
    ensures forall i :: 0 <= i < |s| ==> '0' <= s[i] <= '9'
    ensures s[0] == '0' <==> n == 0
    ensures |s| == 1 || s[0] != '0'
  {
    if n < 10 then [DigitChar(n)]
    else
      var high := Decimal(n / 10);
      assert (high + [DigitChar(n % 10)])[0] == high[0];
      high + [DigitChar(n % 10)]
  }

  /** Reads a string of decimal digits back as a number. */
  function ParseDecimal(s: string): nat
  {
    if s == [] then 0 else ParseDecimal(s[..|s| - 1]) * 10 + DigitValue(s[|s| - 1])
  }

  lemma {:induction false} DecimalRoundTrip(n: nat)
    ensures ParseDecimal(Decimal(n)) == n
  {
    var s := Decimal(n);
    if n < 10 {
      assert s[..0] == [];
    } else {
      assert s[..|s| - 1] == Decimal(n / 10);
      DecimalRoundTrip(n / 10);
    }
  }

  /** A digit string with no leading zero is the decimal rendering of the
      number it reads as: there is exactly one way to write each index. */
  lemma {:induction false} CanonicalDecimal(s: string)
    requires |s| >= 1 && (|s| == 1 || s[0] != '0')
    requires forall i :: 0 <= i < |s| ==> '0' <= s[i] <= '9'
    ensures Decimal(ParseDecimal(s)) == s
  {
    var d := s[|s| - 1];
    if |s| == 1 {
      assert s[..0] == [];
    } else {
      var high := s[..|s| - 1];
      CanonicalDecimal(high);
      assert high[0] == s[0];
      var n := ParseDecimal(s);
      assert ParseDecimal(high) >= 1;
      assert n / 10 == ParseDecimal(high) && n % 10 == DigitValue(d);
      assert s == high + [d];
    }
  }

  lemma DecimalInjective(a: nat, b: nat)
    requires Decimal(a) == Decimal(b)
    ensures a == b
  {
    DecimalRoundTrip(a);
    DecimalRoundTrip(b);
  }
}

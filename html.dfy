/**
 * `escapeHtml` (app.js) and the decoder of the five entities it produces.
 */
module Html {

  /** The characters `escapeHtml` rewrites. */
  predicate Special(c: char) {
    c == '&' || c == '<' || c == '>' || c == '"' || c == '\''
  }

  /** The characters that may not appear in escaped text at all. */
  predicate Unsafe(c: char) {
    c == '<' || c == '>' || c == '"' || c == '\''
  }

  /** The replacement table of `escapeHtml`. */
  function Entity(c: char): (e: string)
    ensures |e| >= 1 && e[0] == (if Special(c) then '&' else c)
    ensures !Special(c) ==> e == [c]
    ensures forall i :: 0 <= i < |e| ==> !Unsafe(e[i])
  {
    match c
    case '&' => "&amp;"
    case '<' => "&lt;"
    case '>' => "&gt;"
    case '"' => "&quot;"
    case '\'' => "&#39;"
    case _ => [c]
  }

  /** `escapeHtml(s)`: each special character replaced by its entity, every
      other character kept in order. The empty (falsy) string gives `''`. */
  function EscapeHtml(s: string): (r: string)
    ensures |r| >= |s|
    ensures forall i :: 0 <= i < |r| ==> !Unsafe(r[i])
  {
    if s == "" then ""
    else
      var e, rest := Entity(s[0]), EscapeHtml(s[1..]);
      assert forall i :: |e| <= i < |e| + |rest| ==> (e + rest)[i] == rest[i - |e|];
      e + rest
  }

  predicate StartsWith(s: string, prefix: string) {
    |prefix| <= |s| && s[..|prefix|] == prefix
  }

  /** Decodes `&amp;`, `&lt;`, `&gt;`, `&quot;` and `&#39;`; any other
      character, including an `&` that starts none of them, is kept. */
  function UnescapeHtml(s: string): (r: string)
    ensures |r| <= |s|
  {
    if s == "" then ""
    else if s[0] != '&' then [s[0]] + UnescapeHtml(s[1..])
    else if StartsWith(s, "&amp;") then "&" + UnescapeHtml(s[5..])
    else if StartsWith(s, "&lt;") then "<" + UnescapeHtml(s[4..])
    else if StartsWith(s, "&gt;") then ">" + UnescapeHtml(s[4..])
    else if StartsWith(s, "&quot;") then "\"" + UnescapeHtml(s[6..])
    else if StartsWith(s, "&#39;") then "'" + UnescapeHtml(s[5..])
    else "&" + UnescapeHtml(s[1..])
  }

  lemma UnescapeEntity(c: char, t: string)
    ensures UnescapeHtml(Entity(c) + t) == [c] + UnescapeHtml(t)
  {
    var e := Entity(c);
    var s := e + t;
    assert s[..|e|] == e && s[|e|..] == t;
    if Special(c) {
      assert s[1] == e[1];
      DiffersAt(s, "&amp;", 1);
      DiffersAt(s, "&lt;", 1);
      DiffersAt(s, "&gt;", 1);
      DiffersAt(s, "&quot;", 1);
    } else {
      assert s[0] == c && s[1..] == t;
    }
  }

  lemma DiffersAt(s: string, prefix: string, k: nat)
    requires k < |prefix| && k < |s|
    ensures s[k] != prefix[k] ==> !StartsWith(s, prefix)
  {
    if StartsWith(s, prefix) { assert s[..|prefix|][k] == s[k]; }
  }

  /** Decoding the five entities undoes `escapeHtml`. */
  lemma {:induction false} EscapeRoundTrip(s: string)
    ensures UnescapeHtml(EscapeHtml(s)) == s
  {
    if s != "" {
      UnescapeEntity(s[0], EscapeHtml(s[1..]));
      EscapeRoundTrip(s[1..]);
      assert [s[0]] + s[1..] == s;
    }
  }

  /** Escaping works character by character, so it distributes over concatenation. */
  lemma {:induction false} EscapeConcat(a: string, b: string)
    ensures EscapeHtml(a + b) == EscapeHtml(a) + EscapeHtml(b)
  {
    if a == "" {
      assert a + b == b;
    } else {
      assert (a + b)[0] == a[0] && (a + b)[1..] == a[1..] + b;
      EscapeConcat(a[1..], b);
    }
  }

  /** Text without special characters comes out unchanged. */
  lemma {:induction false} EscapePlainText(s: string)
    requires forall i :: 0 <= i < |s| ==> !Special(s[i])
    ensures EscapeHtml(s) == s
  {
    if s != "" {
      EscapePlainText(s[1..]);
      assert [s[0]] + s[1..] == s;
    }
  }

  /** `s` begins with one of the five entities. */
  predicate OpensEntity(s: string) {
    || StartsWith(s, "&amp;") || StartsWith(s, "&lt;") || StartsWith(s, "&gt;")
    || StartsWith(s, "&quot;") || StartsWith(s, "&#39;")
  }

  lemma EntityOpens(c: char, t: string)
    requires Special(c)
    ensures OpensEntity(Entity(c) + t)
  {
    var e := Entity(c);
    assert (e + t)[..|e|] == e;
  }

  /** Every `&` in escaped text opens one of the five entities. */
  lemma {:induction false} EscapedAmpersands(s: string, i: nat)
    requires i < |EscapeHtml(s)| && EscapeHtml(s)[i] == '&'
    ensures OpensEntity(EscapeHtml(s)[i..])
  {
    var e, rest := Entity(s[0]), EscapeHtml(s[1..]);
    var r := EscapeHtml(s);
    assert r == e + rest;
    if i < |e| {
      assert i == 0 && Special(s[0]);
      EntityOpens(s[0], rest);
      assert r[i..] == e + rest;
    } else {
      assert rest[i - |e|] == '&';
      EscapedAmpersands(s[1..], i - |e|);
      assert r[i..] == rest[i - |e|..];
    }
  }
}

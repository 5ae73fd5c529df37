/**
 * The search highlighting of the compact course tile
 * (frontend/src/components/CompactCourseTile.jsx): the guard that decides
 * whether a field is highlighted at all, and `escapeRegExp`, which turns the
 * query into a pattern matching it literally.
 */
module CourseTile {
  import opened Wrappers

  /** The characters `escapeRegExp` escapes: `. * + ? ^ $ { } ( ) | [ ] \`. */
  predicate IsSpecial(c: char) {
    c in ".*+?^${}()|[]\\"
  }

  /** The number of special characters in `s`. */
  function CountSpecial(s: string): nat {
    if s == [] then 0 else (if IsSpecial(s[0]) then 1 else 0) + CountSpecial(s[1..])
  }

  /** `string.replace(/[.*+?^${}()|[\]\\]/g, '\\$&')`: a backslash before every special character. */
  function EscapeRegExp(s: string): (r: string)
    ensures |r| == |s| + CountSpecial(s)
    ensures s == [] ==> r == []
    ensures s != [] && IsSpecial(s[0]) ==> r[..2] == ['\\', s[0]] && r[2..] == EscapeRegExp(s[1..])
    ensures s != [] && !IsSpecial(s[0]) ==> r[..1] == [s[0]] && r[1..] == EscapeRegExp(s[1..])
  {
    if s == [] then []
    else if IsSpecial(s[0]) then ['\\', s[0]] + EscapeRegExp(s[1..])
    else [s[0]] + EscapeRegExp(s[1..])
  }

  /** Reading an escaped pattern back: a backslash stands for the character after it. */
  function Unescape(p: string): (r: string)
    ensures |r| <= |p|
  {
    if p == [] then []
    else if p[0] == '\\' && |p| >= 2 then [p[1]] + Unescape(p[2..])
    else [p[0]] + Unescape(p[1..])
  }

  /** The escaped pattern stands for exactly the query: unescaping gives the query back. */
  lemma {:induction false} UnescapeEscape(s: string)
    ensures Unescape(EscapeRegExp(s)) == s
  {
    if s != [] {
      UnescapeEscape(s[1..]);
      var r := EscapeRegExp(s);
      if IsSpecial(s[0]) {
        assert r == ['\\', s[0]] + EscapeRegExp(s[1..]);
      } else {
        assert r == [s[0]] + EscapeRegExp(s[1..]);
        assert r[0] != '\\';
      }
    }
  }

  /** Two queries escape to the same pattern only when they are the same query. */
  lemma EscapeInjective(s: string, t: string)
    requires EscapeRegExp(s) == EscapeRegExp(t)
    ensures s == t
  {
    UnescapeEscape(s);
    UnescapeEscape(t);
  }

  /** A query without special characters is its own pattern. */
  lemma {:induction false} EscapePlain(s: string)
    requires forall i :: 0 <= i < |s| ==> !IsSpecial(s[i])
    ensures EscapeRegExp(s) == s
  {
    if s != [] {
      EscapePlain(s[1..]);
      assert EscapeRegExp(s) == [s[0]] + EscapeRegExp(s[1..]);
    }
  }

  /** Every special character of the pattern is escaped: at each position a special character sits behind a backslash. */
  lemma {:induction false} EscapedSpecialsArePreceded(s: string, k: nat)
    requires k < |EscapeRegExp(s)| && IsSpecial(EscapeRegExp(s)[k]) && EscapeRegExp(s)[k] != '\\'
    ensures k > 0 && EscapeRegExp(s)[k - 1] == '\\'
  {
    var r := EscapeRegExp(s);
    var rest := EscapeRegExp(s[1..]);
    if IsSpecial(s[0]) {
      assert r == ['\\', s[0]] + rest;
      if k >= 2 {
        EscapedSpecialsArePreceded(s[1..], k - 2);
        assert r[k] == rest[k - 2] && r[k - 1] == rest[k - 3];
      }
    } else {
      assert r == [s[0]] + rest;
      assert k >= 1;
      EscapedSpecialsArePreceded(s[1..], k - 1);
      assert r[k] == rest[k - 1] && r[k - 1] == rest[k - 2];
    }
  }

  /** What `highlightText` returns: the text as it is, or the text split on the query's pattern. */
  datatype Highlight = Unchanged(text: Option<string>) | Split(source: string, pattern: string)

  /**
   * `highlightText(text, query)`: a missing query, one shorter than three
   * characters, or a missing or empty text leaves the text as it is;
   * otherwise the text is split on the group `(` escaped query `)`.
   */
  function HighlightText(text: Option<string>, query: Option<string>): (h: Highlight)
    ensures h.Unchanged? <==> query.None? || |query.value| < 3 || text.None? || text.value == ""
    ensures h.Unchanged? ==> h.text == text
    ensures h.Split? ==> |h.pattern| >= 5 && h.pattern[0] == '(' && h.pattern[|h.pattern| - 1] == ')'
    ensures h.Split? ==> h.source == text.value && Unescape(h.pattern[1..|h.pattern| - 1]) == query.value
  {
    if query.None? || |query.value| < 3 || text.None? || text.value == "" then Unchanged(text)
    else
      var p := "(" + EscapeRegExp(query.value) + ")";
      UnescapeEscape(query.value);
      assert p[1..|p| - 1] == EscapeRegExp(query.value);
      Split(text.value, p)
  }
}

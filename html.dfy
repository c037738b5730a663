/** `escapeHtml` of scripts/build.mjs: five `replaceAll` calls, `&` first. */
module Html {
  import opened Text

  /** `s.replaceAll(c, rep)` for a one-character pattern. */
  function ReplaceChar(s: string, c: char, rep: string): string {
    if s == [] then "" else (if s[0] == c then rep else [s[0]]) + ReplaceChar(s[1..], c, rep)
  }

  /** The entity each special character becomes. */
  function EscapeChar(c: char): string {
    if c == '&' then "&amp;"
    else if c == '<' then "&lt;"
    else if c == '>' then "&gt;"
    else if c == '"' then "&quot;"
    else if c == '\'' then "&#39;"
    else [c]
  }

  function EscapeEach(s: string): string {
    if s == [] then "" else EscapeChar(s[0]) + EscapeEach(s[1..])
  }

  predicate IsMarkupChar(c: char) {
    c == '<' || c == '>' || c == '"' || c == '\''
  }

  /** One of the five entities the escaper produces starts at `i`. */
  predicate EntityAt(r: string, i: int) {
    || MatchAt(r, "&amp;", i) || MatchAt(r, "&lt;", i) || MatchAt(r, "&gt;", i)
    || MatchAt(r, "&quot;", i) || MatchAt(r, "&#39;", i)
  }

  /** Decodes the five entities in one left-to-right pass; anything else is kept. */
  function Unescape(s: string): string {
    if s == [] then ""
    else if StartsWith(s, "&amp;") then "&" + Unescape(s[5..])
    else if StartsWith(s, "&lt;") then "<" + Unescape(s[4..])
    else if StartsWith(s, "&gt;") then ">" + Unescape(s[4..])
    else if StartsWith(s, "&quot;") then "\"" + Unescape(s[6..])
    else if StartsWith(s, "&#39;") then "'" + Unescape(s[5..])
    else [s[0]] + Unescape(s[1..])
  }

  function EscapeHtml(s: string): (r: string)
    ensures r == EscapeEach(s)
    ensures forall i :: 0 <= i < |r| ==> !IsMarkupChar(r[i])
    ensures forall i :: 0 <= i < |r| && r[i] == '&' ==> EntityAt(r, i)
    ensures Unescape(r) == s
  {
    EscapeHtmlPerChar(s);
    EscapeEachSafe(s);
    UnescapeEscape(s);
    Chain(s)
  }

  lemma {:induction false} ReplaceCharConcat(a: string, b: string, c: char, rep: string)
    ensures ReplaceChar(a + b, c, rep) == ReplaceChar(a, c, rep) + ReplaceChar(b, c, rep)
  {
    if a != [] {
      assert (a + b)[1..] == a[1..] + b;
      ReplaceCharConcat(a[1..], b, c, rep);
    } else {
      assert a + b == b;
    }
  }

  lemma {:induction false} ReplaceCharAbsent(s: string, c: char, rep: string)
    requires c !in s
    ensures ReplaceChar(s, c, rep) == s
  {
    if s != [] {
      ReplaceCharAbsent(s[1..], c, rep);
    }
  }

  /** The body of `escapeHtml`: `&`, `<`, `>`, `"` and `'` replaced in that order. */
  function Chain(s: string): string {
    ReplaceChar(ReplaceChar(ReplaceChar(ReplaceChar(ReplaceChar(
      s, '&', "&amp;"), '<', "&lt;"), '>', "&gt;"), '"', "&quot;"), '\'', "&#39;")
  }

  lemma ChainConcat(a: string, b: string)
    ensures Chain(a + b) == Chain(a) + Chain(b)
  {
    var a1, b1 := ReplaceChar(a, '&', "&amp;"), ReplaceChar(b, '&', "&amp;");
    ReplaceCharConcat(a, b, '&', "&amp;");
    var a2, b2 := ReplaceChar(a1, '<', "&lt;"), ReplaceChar(b1, '<', "&lt;");
    ReplaceCharConcat(a1, b1, '<', "&lt;");
    var a3, b3 := ReplaceChar(a2, '>', "&gt;"), ReplaceChar(b2, '>', "&gt;");
    ReplaceCharConcat(a2, b2, '>', "&gt;");
    var a4, b4 := ReplaceChar(a3, '"', "&quot;"), ReplaceChar(b3, '"', "&quot;");
    ReplaceCharConcat(a3, b3, '"', "&quot;");
    ReplaceCharConcat(a4, b4, '\'', "&#39;");
  }

  lemma ReplaceCharOne(x: char, c: char, rep: string)
    ensures ReplaceChar([x], c, rep) == if x == c then rep else [x]
  {
    assert [x][1..] == [];
  }

  /** No step after the one that produced an entity finds its pattern in it. */
  lemma ChainRest(e: string, k: nat)
    requires 1 <= k <= 5
    requires k <= 1 ==> '<' !in e
    requires k <= 2 ==> '>' !in e
    requires k <= 3 ==> '"' !in e
    requires '\'' !in e
    ensures k <= 1 ==> ReplaceChar(e, '<', "&lt;") == e
    ensures k <= 2 ==> ReplaceChar(e, '>', "&gt;") == e
    ensures k <= 3 ==> ReplaceChar(e, '"', "&quot;") == e
    ensures ReplaceChar(e, '\'', "&#39;") == e
  {
    if k <= 1 { ReplaceCharAbsent(e, '<', "&lt;"); }
    if k <= 2 { ReplaceCharAbsent(e, '>', "&gt;"); }
    if k <= 3 { ReplaceCharAbsent(e, '"', "&quot;"); }
    ReplaceCharAbsent(e, '\'', "&#39;");
  }

  /** On one character the chain gives its entity. */
  lemma ChainOne(x: char)
    ensures Chain([x]) == EscapeChar(x)
  {
    ReplaceCharOne(x, '&', "&amp;");
    if x == '&' {
      ChainRest("&amp;", 1);
    } else {
      ReplaceCharOne(x, '<', "&lt;");
      if x == '<' {
        ChainRest("&lt;", 2);
      } else {
        ReplaceCharOne(x, '>', "&gt;");
        if x == '>' {
          ChainRest("&gt;", 3);
        } else {
          ReplaceCharOne(x, '"', "&quot;");
          if x == '"' {
            ChainRest("&quot;", 4);
          } else {
            ReplaceCharOne(x, '\'', "&#39;");
          }
        }
      }
    }
  }

  /** Because `&` is replaced first and no entity holds a later pattern, the
      chain of `replaceAll` calls escapes each character independently. */
  lemma {:induction false} EscapeHtmlPerChar(s: string)
    ensures Chain(s) == EscapeEach(s)
  {
    if s != [] {
      assert s == [s[0]] + s[1..];
      ChainConcat([s[0]], s[1..]);
      ChainOne(s[0]);
      EscapeHtmlPerChar(s[1..]);
    }
  }

  lemma MatchAtShift(a: string, b: string, pat: string, j: int)
    requires MatchAt(b, pat, j)
    ensures MatchAt(a + b, pat, |a| + j)
  {
    assert (a + b)[|a| + j..|a| + j + |pat|] == b[j..j + |pat|];
  }

  lemma MatchAtFront(a: string, b: string)
    ensures MatchAt(a + b, a, 0)
  {
    assert (a + b)[..|a|] == a;
  }

  /** No markup character, and every `&` starts an entity. */
  predicate Safe(r: string) {
    && (forall i :: 0 <= i < |r| ==> !IsMarkupChar(r[i]))
    && (forall i :: 0 <= i < |r| && r[i] == '&' ==> EntityAt(r, i))
  }

  lemma MatchAtExtend(a: string, b: string, pat: string, i: int)
    requires MatchAt(a, pat, i)
    ensures MatchAt(a + b, pat, i)
  {
    assert (a + b)[i..i + |pat|] == a[i..i + |pat|];
  }

  lemma EntityAtConcat(a: string, b: string, i: int)
    ensures 0 <= i < |a| && EntityAt(a, i) ==> EntityAt(a + b, i)
    ensures |a| <= i && EntityAt(b, i - |a|) ==> EntityAt(a + b, i)
  {
    if 0 <= i < |a| && EntityAt(a, i) {
      if MatchAt(a, "&amp;", i) { MatchAtExtend(a, b, "&amp;", i); }
      else if MatchAt(a, "&lt;", i) { MatchAtExtend(a, b, "&lt;", i); }
      else if MatchAt(a, "&gt;", i) { MatchAtExtend(a, b, "&gt;", i); }
      else if MatchAt(a, "&quot;", i) { MatchAtExtend(a, b, "&quot;", i); }
      else { MatchAtExtend(a, b, "&#39;", i); }
    }
    if |a| <= i && EntityAt(b, i - |a|) {
      var j := i - |a|;
      if MatchAt(b, "&amp;", j) { MatchAtShift(a, b, "&amp;", j); }
      else if MatchAt(b, "&lt;", j) { MatchAtShift(a, b, "&lt;", j); }
      else if MatchAt(b, "&gt;", j) { MatchAtShift(a, b, "&gt;", j); }
      else if MatchAt(b, "&quot;", j) { MatchAtShift(a, b, "&quot;", j); }
      else { MatchAtShift(a, b, "&#39;", j); }
    }
  }

  lemma SafeConcat(a: string, b: string)
    requires Safe(a) && Safe(b)
    ensures Safe(a + b)
  {
    forall i | 0 <= i < |a + b| && (a + b)[i] == '&' ensures EntityAt(a + b, i) {
      EntityAtConcat(a, b, i);
      if i < |a| {
        assert a[i] == '&';
      } else {
        assert b[i - |a|] == '&';
      }
    }
  }

  lemma EscapeCharSafe(c: char)
    ensures Safe(EscapeChar(c))
  {
    if c == '&' {
      EntitySafe("&amp;");
    } else if c == '<' {
      EntitySafe("&lt;");
    } else if c == '>' {
      EntitySafe("&gt;");
    } else if c == '"' {
      EntitySafe("&quot;");
    } else if c == '\'' {
      EntitySafe("&#39;");
    }
  }

  /** An entity on its own is safe: its one `&` starts it. */
  lemma EntitySafe(e: string)
    requires |e| > 0 && e[0] == '&' && MatchAt(e, e, 0) && EntityAt(e, 0)
    requires forall i :: 0 <= i < |e| ==> !IsMarkupChar(e[i])
    requires forall i :: 0 < i < |e| ==> e[i] != '&'
    ensures Safe(e)
  {
  }

  lemma {:induction false} EscapeEachSafe(s: string)
    ensures Safe(EscapeEach(s))
  {
    if s != [] {
      EscapeEachSafe(s[1..]);
      EscapeCharSafe(s[0]);
      SafeConcat(EscapeChar(s[0]), EscapeEach(s[1..]));
    }
  }

  /** A character other than `&` is copied through. */
  lemma UnescapePlain(r: string)
    requires r != [] && r[0] != '&'
    ensures Unescape(r) == [r[0]] + Unescape(r[1..])
  {
    assert forall n :: 1 <= n <= |r| ==> r[..n][0] == r[0];
  }

  /** An entity the escaper produced is decoded back to its character; the
      second character of each entity tells the five apart. */
  lemma UnescapeEntity(c: char, t: string)
    requires EscapeChar(c) != [c]
    ensures Unescape(EscapeChar(c) + t) == [c] + Unescape(t)
  {
    var h := EscapeChar(c);
    var r := h + t;
    assert r[..|h|] == h;
    assert r[|h|..] == t;
    assert r[1] == h[1];
    assert forall n :: 2 <= n <= |r| ==> r[..n][1] == r[1];
  }

  lemma UnescapeOne(c: char, t: string)
    ensures Unescape(EscapeChar(c) + t) == [c] + Unescape(t)
  {
    if EscapeChar(c) == [c] {
      var r := [c] + t;
      assert r[1..] == t;
      UnescapePlain(r);
    } else {
      UnescapeEntity(c, t);
    }
  }

  /** The decoder inverts the escaper. */
  lemma {:induction false} UnescapeEscape(s: string)
    ensures Unescape(EscapeEach(s)) == s
  {
    if s != [] {
      UnescapeOne(s[0], EscapeEach(s[1..]));
      UnescapeEscape(s[1..]);
      assert s == [s[0]] + s[1..];
    }
  }
}

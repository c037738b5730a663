/** `estimateReadingTime` of scripts/build.mjs: 300 CJK characters and 200
    words a minute, rounded to the nearest minute and at least one. */
module ReadingTime {
  import opened Text

  /** `text.replace(/<[^>]+>/g, "")`: a `<`, at least one character that is
      not `>`, and the first `>` after it are removed; the scan goes on after
      the removed text. */
  function StripTags(s: string): (r: string)
    ensures |r| <= |s|
    ensures '<' !in s ==> r == s
    decreases |s|
  {
    if s == [] then ""
    else if s[0] == '<' && |s| >= 2 && s[1] != '>' && '>' in s[1..] then
      StripTags(s[FirstIndex(s[1..], '>') + 2..])
    else [s[0]] + StripTags(s[1..])
  }

  /** `.replace(/\$\$[\s\S]*?\$\$/g, "")`: from a `$$` to the next `$$`
      (lazy), across lines. */
  function StripBlockMath(s: string): (r: string)
    ensures |r| <= |s|
    ensures '$' !in s ==> r == s
    decreases |s|
  {
    if s == [] then ""
    else if StartsWith(s, "$$") && IndexOfFrom(s, "$$", 2) != -1 then
      assert s[..2][0] == s[0];
      StripBlockMath(s[IndexOfFrom(s, "$$", 2) + 2..])
    else [s[0]] + StripBlockMath(s[1..])
  }

  /** `.replace(/\$[^$]+\$/g, "")`: a `$`, at least one non-`$`, and the next `$`. */
  function StripInlineMath(s: string): (r: string)
    ensures |r| <= |s|
    ensures '$' !in s ==> r == s
    decreases |s|
  {
    if s == [] then ""
    else if s[0] == '$' && |s| >= 2 && s[1] != '$' && '$' in s[1..] then
      StripInlineMath(s[FirstIndex(s[1..], '$') + 2..])
    else [s[0]] + StripInlineMath(s[1..])
  }

  lemma Regroup(a: string, x: string, t: string, y: string, b: string)
    ensures a + x + t + y + b == a + (x + t + y + b)
  {
  }

  /** Text before the first `<` is kept as it is. */
  lemma {:induction false} StripTagsPlain(a: string, b: string)
    requires '<' !in a
    ensures StripTags(a + b) == a + StripTags(b)
  {
    if a != [] {
      assert a[0] in a;
      var s := a + b;
      assert s[0] == a[0] && s[1..] == a[1..] + b;
      calc {
        StripTags(s);
        [a[0]] + StripTags(a[1..] + b);
        { StripTagsPlain(a[1..], b); }
        [a[0]] + (a[1..] + StripTags(b));
        { assert [a[0]] + a[1..] == a; }
        a + StripTags(b);
      }
    } else {
      assert a + b == b;
    }
  }

  /** A tag `<t>` is removed and the scan goes on after its `>`. */
  lemma StripTagsTag(t: string, b: string)
    requires t != [] && '>' !in t
    ensures StripTags("<" + t + ">" + b) == StripTags(b)
  {
    var s := "<" + t + ">" + b;
    assert s[1..] == t + ">" + b;
    assert s[1..][|t|] == '>';
    var i := FirstIndex(s[1..], '>');
    assert s[1..][..|t|] == t;
    assert i == |t|;
    assert s[1] == t[0];
    assert s[|t| + 2..] == b;
  }

  /** The tags of a text are removed and the text around them kept. */
  lemma StripTagsKeepsText(a: string, t: string, b: string)
    requires '<' !in a && t != [] && '>' !in t
    ensures StripTags(a + "<" + t + ">" + b) == a + StripTags(b)
  {
    var u := "<" + t + ">" + b;
    calc {
      StripTags(a + "<" + t + ">" + b);
      { Regroup(a, "<", t, ">", b); }
      StripTags(a + u);
      { StripTagsPlain(a, u); }
      a + StripTags(u);
      { StripTagsTag(t, b); }
      a + StripTags(b);
    }
  }


  /** Text before the first `$` is kept by the block-math pass. */
  lemma {:induction false} StripBlockMathPlain(a: string, b: string)
    requires '$' !in a
    ensures StripBlockMath(a + b) == a + StripBlockMath(b)
  {
    if a != [] {
      assert a[0] in a;
      var s := a + b;
      assert s[0] == a[0] && s[1..] == a[1..] + b;
      assert !StartsWith(s, "$$");
      calc {
        StripBlockMath(s);
        [a[0]] + StripBlockMath(a[1..] + b);
        { StripBlockMathPlain(a[1..], b); }
        [a[0]] + (a[1..] + StripBlockMath(b));
        { assert [a[0]] + a[1..] == a; }
        a + StripBlockMath(b);
      }
    } else {
      assert a + b == b;
    }
  }

  /** A block `$$t$$` with no `$` inside is removed. */
  lemma StripBlockMathBlock(t: string, b: string)
    requires '$' !in t
    ensures StripBlockMath("$$" + t + "$$" + b) == StripBlockMath(b)
  {
    var s := "$$" + t + "$$" + b;
    var k := |t| + 2;
    assert StartsWith(s, "$$") by {
      assert s[..2] == "$$";
    }
    assert MatchAt(s, "$$", k) by {
      assert s[k..k + 2] == "$$";
    }
    forall m | 2 <= m < k
      ensures !MatchAt(s, "$$", m)
    {
      assert s[m] == t[m - 2];
      assert s[m..m + 2][0] == s[m];
    }
    assert IndexOfFrom(s, "$$", 2) == k;
    assert s[k + 2..] == b;
  }

  /** Display math is removed and the text around it kept. */
  lemma StripBlockMathKeepsText(a: string, t: string, b: string)
    requires '$' !in a && '$' !in t
    ensures StripBlockMath(a + "$$" + t + "$$" + b) == a + StripBlockMath(b)
  {
    var u := "$$" + t + "$$" + b;
    calc {
      StripBlockMath(a + "$$" + t + "$$" + b);
      { Regroup(a, "$$", t, "$$", b); }
      StripBlockMath(a + u);
      { StripBlockMathPlain(a, u); }
      a + StripBlockMath(u);
      { StripBlockMathBlock(t, b); }
      a + StripBlockMath(b);
    }
  }


  /** Text before the first `$` is kept by the inline-math pass. */
  lemma {:induction false} StripInlineMathPlain(a: string, b: string)
    requires '$' !in a
    ensures StripInlineMath(a + b) == a + StripInlineMath(b)
  {
    if a != [] {
      assert a[0] in a;
      var s := a + b;
      assert s[0] == a[0] && s[1..] == a[1..] + b;
      calc {
        StripInlineMath(s);
        [a[0]] + StripInlineMath(a[1..] + b);
        { StripInlineMathPlain(a[1..], b); }
        [a[0]] + (a[1..] + StripInlineMath(b));
        { assert [a[0]] + a[1..] == a; }
        a + StripInlineMath(b);
      }
    } else {
      assert a + b == b;
    }
  }

  /** A span `$t$` with non-empty, `$`-free content is removed. */
  lemma StripInlineMathSpan(t: string, b: string)
    requires t != [] && '$' !in t
    ensures StripInlineMath("$" + t + "$" + b) == StripInlineMath(b)
  {
    var s := "$" + t + "$" + b;
    assert s[1..] == t + "$" + b;
    assert s[1..][|t|] == '$';
    var i := FirstIndex(s[1..], '$');
    assert s[1..][..|t|] == t;
    assert i == |t|;
    assert s[1] == t[0];
    assert s[|t| + 2..] == b;
  }

  /** Inline math is removed and the text around it kept. */
  lemma StripInlineMathKeepsText(a: string, t: string, b: string)
    requires '$' !in a && t != [] && '$' !in t
    ensures StripInlineMath(a + "$" + t + "$" + b) == a + StripInlineMath(b)
  {
    var u := "$" + t + "$" + b;
    calc {
      StripInlineMath(a + "$" + t + "$" + b);
      { Regroup(a, "$", t, "$", b); }
      StripInlineMath(a + u);
      { StripInlineMathPlain(a, u); }
      a + StripInlineMath(u);
      { StripInlineMathSpan(t, b); }
      a + StripInlineMath(b);
    }
  }


  /** The regex classes `[一-鿿㐀-䶿]`. */
  predicate IsCjk(c: char) {
    ('\U{4E00}' <= c <= '\U{9FFF}') || ('\U{3400}' <= c <= '\U{4DBF}')
  }

  /** After CJK characters are replaced by spaces, a word ends at whitespace. */
  predicate IsSep(c: char) {
    IsSpace(c) || IsCjk(c)
  }

  function CjkCount(s: string): (n: nat)
    ensures n <= |s|
  {
    if s == [] then 0 else (if IsCjk(s[0]) then 1 else 0) + CjkCount(s[1..])
  }

  /** The number of pieces `split(/\s+/).filter(Boolean)` returns once CJK
      characters are spaces: maximal runs of non-separators, counted at the
      position where each run ends. */
  function WordCount(s: string): (n: nat)
    ensures n <= |s|
  {
    if s == [] then 0
    else (if !IsSep(s[0]) && (|s| == 1 || IsSep(s[1])) then 1 else 0) + WordCount(s[1..])
  }

  /** `Math.max(1, Math.round(cjk / 300 + words / 200))` in integers:
      `cjk/300 + words/200` is `(2*cjk + 3*words) / 600`, and rounding half up
      adds 300 before the floor division. */
  function Minutes(cjk: nat, words: nat): (m: nat)
    ensures m >= 1
    ensures m == 1 || 600 * m - 300 <= 2 * cjk + 3 * words < 600 * m + 300
  {
    var r := (2 * cjk + 3 * words + 300) / 600;
    if r < 1 then 1 else r
  }

  /** The text that is counted: tags, display math and inline math removed. */
  function Clean(text: string): string {
    StripInlineMath(StripBlockMath(StripTags(text)))
  }

  function EstimateReadingTime(text: string): (m: nat)
    ensures m >= 1
  {
    var clean := Clean(text);
    Minutes(CjkCount(clean), WordCount(clean))
  }

  /** A tag counts for nothing: the text with it is estimated exactly as the
      text without it. */
  lemma TagNotCounted(a: string, t: string, b: string)
    requires '<' !in a && t != [] && '>' !in t
    ensures Clean(a + "<" + t + ">" + b) == Clean(a + b)
    ensures EstimateReadingTime(a + "<" + t + ">" + b) == EstimateReadingTime(a + b)
  {
    StripTagsKeepsText(a, t, b);
    StripTagsPlain(a, b);
  }

  /** Display math counts for nothing either. */
  lemma BlockMathNotCounted(a: string, t: string, b: string)
    requires '<' !in a && '<' !in t && '$' !in a && '$' !in t
    ensures Clean(a + "$$" + t + "$$" + b) == Clean(a + b)
    ensures EstimateReadingTime(a + "$$" + t + "$$" + b) == EstimateReadingTime(a + b)
  {
    var x := StripTags(b);
    var pre := a + "$$" + t + "$$";
    assert '<' !in pre by {
      assert forall c :: c in pre ==> c in a || c in t || c == '$';
    }
    StripTagsPlain(pre, b);
    StripTagsPlain(a, b);
    Regroup(a, "$$", t, "$$", b);
    assert StripTags(a + "$$" + t + "$$" + b) == pre + x;
    StripBlockMathKeepsText(a, t, x);
    StripBlockMathPlain(a, x);
  }

  /** The result is the nearest whole minute whenever that is at least one:
      it is below one only when the estimate is under half a minute. */
  lemma MinutesNearest(cjk: nat, words: nat)
    ensures Minutes(cjk, words) == 1 <==> 2 * cjk + 3 * words < 900
    ensures Minutes(cjk, words) > 1 ==>
      600 * Minutes(cjk, words) - 300 <= 2 * cjk + 3 * words < 600 * Minutes(cjk, words) + 300
  {
  }

  /** More characters or more words never lower the estimate. */
  lemma MinutesMonotone(c1: nat, w1: nat, c2: nat, w2: nat)
    requires c1 <= c2 && w1 <= w2
    ensures Minutes(c1, w1) <= Minutes(c2, w2)
  {
    var a, b := 2 * c1 + 3 * w1 + 300, 2 * c2 + 3 * w2 + 300;
    assert a <= b;
    assert a / 600 <= b / 600;
  }

  /** Counting splits at a separator: the words on both sides add up, so a CJK
      character (like whitespace) never glues two words together. */
  lemma {:induction false} WordCountSplit(x: string, y: string)
    requires y == [] || IsSep(y[0])
    ensures WordCount(x + y) == WordCount(x) + WordCount(y)
  {
    if x == [] {
      assert x + y == y;
    } else {
      assert (x + y)[1..] == x[1..] + y;
      WordCountSplit(x[1..], y);
      if |x| == 1 {
        assert x[1..] == [];
      }
    }
  }

  lemma {:induction false} CjkCountAppend(x: string, y: string)
    ensures CjkCount(x + y) == CjkCount(x) + CjkCount(y)
  {
    if x == [] {
      assert x + y == y;
    } else {
      assert (x + y)[1..] == x[1..] + y;
      CjkCountAppend(x[1..], y);
    }
  }

  /** Each CJK character counts once and separates words. */
  lemma CjkCharCounts(x: string, c: char, y: string)
    requires IsCjk(c)
    ensures CjkCount(x + [c] + y) == CjkCount(x) + 1 + CjkCount(y)
    ensures WordCount(x + [c] + y) == WordCount(x) + WordCount(y)
  {
    CjkCountAppend(x + [c], y);
    CjkCountAppend(x, [c]);
    WordCountSplit(x, [c] + y);
    assert x + [c] + y == x + ([c] + y);
    assert WordCount([c]) == 0;
    assert ([c] + y)[1..] == y;
  }

  /** Text without markup or math is counted as it is. */
  lemma CleanPlain(text: string)
    requires '<' !in text && '$' !in text
    ensures Clean(text) == text
  {
  }
}

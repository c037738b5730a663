/** `stripLeadingH1` of scripts/build.mjs: drops the first line of the body
    when it is a level-one Markdown heading, together with the blank lines
    around it. */
module Heading {
  import opened Text

  predicate IsBlank(line: string) {
    Trim(line) == ""
  }

  /** `/^#\s+/.test(line)`: a `#` followed by at least one whitespace. */
  predicate IsH1(line: string) {
    |line| >= 2 && line[0] == '#' && IsSpace(line[1])
  }

  /** The lines of the CR/LF-normalised text. */
  function Lines(markdown: string): (ls: seq<string>)
    ensures Join(ls, "\n") == NormalizeNewlines(markdown)
  {
    Split(NormalizeNewlines(markdown), '\n')
  }

  /** The first non-blank line at or after `i`, or `|ls|`. */
  function SkipBlank(ls: seq<string>, i: nat): (j: nat)
    requires i <= |ls|
    ensures i <= j <= |ls|
    ensures forall k :: i <= k < j ==> IsBlank(ls[k])
    ensures j == |ls| || !IsBlank(ls[j])
    decreases |ls| - i
  {
    if i < |ls| && IsBlank(ls[i]) then SkipBlank(ls, i + 1) else i
  }

  /** `stripLeadingH1(markdown)` as a value. */
  function StripH1(markdown: string): string {
    var ls := Lines(markdown);
    var i := SkipBlank(ls, 0);
    if i < |ls| && IsH1(ls[i]) then Join(ls[SkipBlank(ls, i + 1)..], "\n")
    else Join(ls, "\n")
  }

  /** The body starts, after blank lines only, with a level-one heading. */
  ghost predicate HasLeadingH1(ls: seq<string>) {
    exists i :: 0 <= i < |ls| && IsH1(ls[i]) && forall j :: 0 <= j < i ==> IsBlank(ls[j])
  }

  /** The two while loops of `stripLeadingH1`. */
  method StripLeadingH1(markdown: string) returns (r: string)
    ensures r == StripH1(markdown)
  {
    var lines := Split(NormalizeNewlines(markdown), '\n');
    var i := 0;
    while i < |lines| && Trim(lines[i]) == ""
      invariant 0 <= i <= |lines|
      invariant SkipBlank(lines, i) == SkipBlank(lines, 0)
    {
      i := i + 1;
    }
    if i < |lines| && IsH1(lines[i]) {
      i := i + 1;
      ghost var start := i;
      while i < |lines| && Trim(lines[i]) == ""
        invariant start <= i <= |lines|
        invariant SkipBlank(lines, i) == SkipBlank(lines, start)
      {
        i := i + 1;
      }
      return Join(lines[i..], "\n");
    }
    return Join(lines, "\n");
  }

  /** Without a leading heading the normalised input comes back unchanged. */
  lemma StripH1KeepsPlainBody(markdown: string)
    requires !HasLeadingH1(Lines(markdown))
    ensures StripH1(markdown) == NormalizeNewlines(markdown)
  {
    var ls := Lines(markdown);
    var i := SkipBlank(ls, 0);
    if i < |ls| && IsH1(ls[i]) {
      assert false;
    }
  }

  /** A heading line is never blank. */
  lemma H1NotBlank(line: string)
    requires IsH1(line)
    ensures !IsBlank(line)
  {
    TrimEmptyIffAllSpace(line);
    assert !IsSpace(line[0]);
  }

  /** With a leading heading exactly that line and the blank lines before and
      after it go: the result is the join of a suffix of the lines, every line
      cut off is blank or that heading, and the suffix starts with a non-blank
      line. No later line is removed. */
  lemma StripH1DropsOneHeading(markdown: string)
    requires HasLeadingH1(Lines(markdown))
    ensures var ls := Lines(markdown);
      exists h, k :: 0 <= h < k <= |ls| && IsH1(ls[h])
        && (forall j :: 0 <= j < k && j != h ==> IsBlank(ls[j]))
        && (k == |ls| || !IsBlank(ls[k]))
        && StripH1(markdown) == Join(ls[k..], "\n")
  {
    var ls := Lines(markdown);
    var h :| 0 <= h < |ls| && IsH1(ls[h]) && forall j :: 0 <= j < h ==> IsBlank(ls[j]);
    var i := SkipBlank(ls, 0);
    H1NotBlank(ls[h]);
    assert i == h;
    var k := SkipBlank(ls, h + 1);
    assert StripH1(markdown) == Join(ls[k..], "\n");
    assert forall j :: 0 <= j < k && j != h ==> IsBlank(ls[j]);
  }

  lemma LinesOfTwo(a: string, b: string)
    requires '\n' !in a && '\n' !in b && '\r' !in a && '\r' !in b
    ensures Lines(a + "\n" + b) == [a, b]
  {
    assert '\r' !in a + "\n" + b;
    SplitJoin([a, b], '\n');
    JoinCons(a, [b], "\n");
  }

  /** A lone heading line strips to nothing. */
  lemma StripLoneHeading(b: string)
    requires IsH1(b) && '\n' !in b && '\r' !in b
    ensures StripH1(b) == ""
  {
    var ms := Lines(b);
    assert ms == [b] by {
      SplitJoin([b], '\n');
    }
    H1NotBlank(b);
    assert SkipBlank(ms, 0) == 0;
    assert ms[1..] == [];
  }

  /** Removing a heading can expose another one: on two heading lines the
      first call removes the first and a second call removes the other. */
  lemma TwoHeadings(a: string, b: string)
    requires IsH1(a) && IsH1(b)
    requires '\n' !in a && '\n' !in b && '\r' !in a && '\r' !in b
    ensures StripH1(a + "\n" + b) == b
    ensures StripH1(StripH1(a + "\n" + b)) == ""
  {
    var ls := Lines(a + "\n" + b);
    LinesOfTwo(a, b);
    H1NotBlank(a);
    H1NotBlank(b);
    assert SkipBlank(ls, 0) == 0;
    assert SkipBlank(ls, 1) == 1;
    assert ls[1..] == [b];
    StripLoneHeading(b);
  }

  /** So the operation is not idempotent: `"# A\n# B"` strips to `"# B"`,
      which strips to `""`. */
  lemma StripH1NotIdempotent(a: string, b: string)
    requires a == "# A" && b == "# B"
    ensures StripH1(StripH1(a + "\n" + b)) != StripH1(a + "\n" + b)
  {
    assert IsH1(a) && IsH1(b);
    TwoHeadings(a, b);
  }
}

/** `newPost` of lib/commands/new-post.mjs: `venblog new <title>` writes
    `posts/<title>.md`, a header holding the title, the date and the tags,
    followed by a level-one heading that repeats the title. The clock is the
    `today` argument and the posts directory a map from file name to text. */
module NewPost {
  import opened Text
  import opened Frontmatter
  import opened Heading

  /** `options.tags.split(",").map((t) => t.trim()).filter(Boolean)` when the
      option is given and not empty; no tags otherwise. */
  function TagsOption(tags: Option<string>): seq<string> {
    if tags.Some? && tags.value != "" then SplitList(tags.value) else []
  }

  /** `tagsStr`: the bracketed, `", "`-joined tags; `"[]"` for none. */
  function TagsStr(tags: seq<string>): string {
    if |tags| > 0 then "[" + Join(tags, ", ") + "]" else "[]"
  }

  /** `options.date || todayStr()`. */
  function DateOption(date: Option<string>, today: string): (r: string)
    ensures date.Some? && date.value != "" ==> r == date.value
    ensures date.None? || date.value == "" ==> r == today
  {
    if date.Some? && date.value != "" then date.value else today
  }

  const Rule := "---"

  /** The nine lines of the new file. */
  function ContentLines(title: string, date: string, tagsStr: string): seq<string> {
    [Rule, FieldLine("title", title), FieldLine("date", date), FieldLine("tags", tagsStr), Rule, "", "# " + title, "", ""]
  }

  /** `content`: the lines joined by `"\n"`. */
  function Content(title: string, date: string, tagsStr: string): string {
    Join(ContentLines(title, date, tagsStr), "\n")
  }

  /** `${title}.md`. */
  function FileName(title: string): string {
    title + ".md"
  }

  // ------------------------------------------------------------ the command

  /** The posts directory and what the command reports. */
  class Workspace {
    var posts: map<string, string>
    var exitCode: int
    var log: seq<string>

    constructor(posts0: map<string, string>)
      ensures posts == posts0 && exitCode == 0 && log == []
    {
      posts := posts0;
      exitCode := 0;
      log := [];
    }

    /** `newPost(title, { tags, date })`: refuses an existing file with exit
        code 1 and writes nothing; otherwise writes the scaffold. */
    method NewPost(title: string, tagsOpt: Option<string>, dateOpt: Option<string>, today: string)
      modifies this
      ensures FileName(title) in old(posts) ==>
        && posts == old(posts) && exitCode == 1
        && log == old(log) + ["文件已存在: posts/" + FileName(title), "如需覆盖，请先手动删除已有文件"]
      ensures FileName(title) !in old(posts) ==>
        && posts == old(posts)[FileName(title) :=
             Content(title, DateOption(dateOpt, today), TagsStr(TagsOption(tagsOpt)))]
        && exitCode == old(exitCode)
        && log == old(log) + ["新博文已创建", "路径: posts/" + FileName(title),
                              "日期: " + DateOption(dateOpt, today) + " | 标签: " + TagsStr(TagsOption(tagsOpt))]
    {
      var fileName := title + ".md";
      if fileName in posts {
        log := log + ["文件已存在: posts/" + fileName, "如需覆盖，请先手动删除已有文件"];
        exitCode := 1;
        return;
      }
      var date := if dateOpt.Some? && dateOpt.value != "" then dateOpt.value else today;
      var tags: seq<string> := [];
      if tagsOpt.Some? && tagsOpt.value != "" {
        tags := SplitList(tagsOpt.value);
      }
      var tagsStr := if |tags| > 0 then "[" + Join(tags, ", ") + "]" else "[]";
      var content := Content(title, date, tagsStr);
      posts := posts[fileName := content];
      log := log + ["新博文已创建", "路径: posts/" + fileName, "日期: " + date + " | 标签: " + tagsStr];
    }
  }

  // ------------------------------------------------------------- properties

  /** The tags taken from the option are non-empty, trimmed and comma-free:
      exactly the tags the header parser can give back. */
  lemma TagsOptionClean(tags: Option<string>)
    ensures forall i :: 0 <= i < |TagsOption(tags)| ==>
      TagsOption(tags)[i] != "" && ',' !in TagsOption(tags)[i] && IsTrimmed(TagsOption(tags)[i])
  {
    if tags.Some? && tags.value != "" {
      SplitListTrimmed(tags.value);
    }
  }

  /** Splitting on commas drops the empty parts, so an option of commas and
      blanks gives no tags. */
  lemma BlankTagsOption(s: string)
    requires forall i :: 0 <= i < |s| ==> s[i] == ',' || IsSpace(s[i])
    ensures TagsOption(Some(s)) == []
  {
    if s != "" {
      var parts := Split(s, ',');
      BlankParts(s);
      BlankPartsClean(parts);
    }
  }

  lemma BlankParts(s: string)
    requires forall i :: 0 <= i < |s| ==> s[i] == ',' || IsSpace(s[i])
    ensures forall i :: 0 <= i < |Split(s, ',')| ==> AllSpace(Split(s, ',')[i])
  {
    var parts := Split(s, ',');
    forall i | 0 <= i < |parts| ensures AllSpace(parts[i]) {
      JoinPartChars(parts, i);
      forall k | 0 <= k < |parts[i]| ensures IsSpace(parts[i][k]) {
        assert parts[i][k] in parts[i];
        assert parts[i][k] != ',';
      }
    }
  }

  /** A character of a part of a `","`-join is a character of the join. */
  lemma JoinPartChars(parts: seq<string>, i: nat)
    requires i < |parts|
    ensures forall c :: c in parts[i] ==> c in Join(parts, ",")
  {
    JoinContainsPart(parts, ",", i);
    var k :| 0 <= k <= |Join(parts, ",")| && MatchAt(Join(parts, ","), parts[i], k);
    var joined := Join(parts, ",");
    forall c | c in parts[i] ensures c in joined {
      var j :| 0 <= j < |parts[i]| && parts[i][j] == c;
      assert joined[k..k + |parts[i]|][j] == joined[k + j];
    }
  }

  lemma {:induction false} BlankPartsClean(parts: seq<string>)
    requires forall i :: 0 <= i < |parts| ==> ',' !in parts[i] && AllSpace(parts[i])
    ensures CleanParts(parts) == []
  {
    if parts != [] {
      TrimEmptyIffAllSpace(parts[0]);
      BlankPartsClean(parts[1..]);
    }
  }

  /** Line breaks are absent from a string. */
  predicate SingleLine(s: string) {
    forall i :: 0 <= i < |s| ==> !IsLineTerminator(s[i])
  }

  lemma {:induction false} JoinSingleLine(parts: seq<string>, sep: string)
    requires SingleLine(sep)
    requires forall i :: 0 <= i < |parts| ==> SingleLine(parts[i])
    ensures SingleLine(Join(parts, sep))
  {
    if |parts| > 1 {
      JoinSingleLine(parts[1..], sep);
      var rest := Join(parts[1..], sep);
      forall i | 0 <= i < |parts[0] + sep + rest| ensures !IsLineTerminator((parts[0] + sep + rest)[i]) {
        if i < |parts[0]| {
          assert (parts[0] + sep + rest)[i] == parts[0][i];
        } else if i < |parts[0]| + |sep| {
          assert (parts[0] + sep + rest)[i] == sep[i - |parts[0]|];
        } else {
          assert (parts[0] + sep + rest)[i] == rest[i - |parts[0]| - |sep|];
        }
      }
    }
  }

  /** `key: value`, a header line. */
  function FieldLine(key: string, value: string): string {
    key + ": " + value
  }

  /** The header text between the two rules. */
  function Block(title: string, date: string, tagsStr: string): string {
    FieldLine("title", title) + "\n" + FieldLine("date", date) + "\n" + FieldLine("tags", tagsStr)
  }

  /** The text after the closing rule: a blank line, the heading and two
      more line ends. */
  function Tail(title: string): string {
    "\n" + ("# " + title) + "\n" + "\n"
  }

  /** The last five lines join to the heading part. */
  lemma ContentTail(title: string, date: string, tagsStr: string)
    ensures Join(ContentLines(title, date, tagsStr)[4..], "\n") == Rule + "\n" + Tail(title)
  {
    var ls := ContentLines(title, date, tagsStr)[4..];
    var h := "# " + title;
    assert ls == [Rule, "", h, "", ""];
    assert ls[1..] == ["", h, "", ""] && ls[1..][1..] == [h, "", ""];
    assert ls[1..][1..][1..] == ["", ""] && ls[1..][1..][1..][1..] == [""];
    assert Join(["", ""], "\n") == "\n";
    assert Join([h, "", ""], "\n") == h + "\n" + "\n";
    assert Join(["", h, "", ""], "\n") == Tail(title);
  }

  /** The content is the opening rule, the header, the closing rule and the
      heading part. */
  lemma ContentShape(title: string, date: string, tagsStr: string)
    ensures Content(title, date, tagsStr) == Open + Block(title, date, tagsStr) + Close + Tail(title)
  {
    var ls := ContentLines(title, date, tagsStr);
    var t, d, g := FieldLine("title", title), FieldLine("date", date), FieldLine("tags", tagsStr);
    var nl := "\n";
    var j4 := Join(ls[4..], nl);
    ContentTail(title, date, tagsStr);
    assert ls[1..][1..] == ls[2..] && ls[2..][1..] == ls[3..] && ls[3..][1..] == ls[4..];
    var j3 := Join(ls[3..], nl);
    assert j3 == g + nl + j4;
    var j2 := Join(ls[2..], nl);
    assert j2 == d + nl + j3;
    var j1 := Join(ls[1..], nl);
    assert j1 == t + nl + j2;
    assert Join(ls, nl) == Rule + nl + j1;
    assert Open == Rule + nl && Close == nl + Rule + nl;
  }

  /** A block whose every line break is followed by something other than
      `-` ends at the first `\n---\n` after the opening rule. */
  lemma FirstClose(block: string, rest: string)
    requires forall i :: 0 <= i < |block| && block[i] == '\n' ==> i + 1 < |block| && block[i + 1] != '-'
    ensures SplitFrontmatter(Open + block + Close + rest) == Some((block, rest))
  {
    var n := Open + block + Close + rest;
    assert MatchAt(n, Close, 4 + |block|) by {
      assert n[4 + |block|..9 + |block|] == Close;
    }
    assert StartsWith(n, Open) by {
      assert n[..4] == Open;
    }
    var k := IndexOfFrom(n, Close, 4);
    assert 4 <= k <= 4 + |block|;
    assert forall j :: 4 <= j < 4 + |block| ==> !MatchAt(n, Close, j) by {
      forall j | 4 <= j < 4 + |block| ensures !MatchAt(n, Close, j) {
        assert n[j] == block[j - 4];
        if block[j - 4] == '\n' {
          assert n[j + 1] == block[j - 3];
          assert n[j..j + 5][1] == n[j + 1];
        } else {
          assert n[j..j + 5][0] == n[j];
        }
      }
    }
    assert k == 4 + |block|;
    assert n[4..k] == block;
    assert n[k + 5..] == rest;
  }

  /** No line break inside a header line. */
  lemma FieldLineSingle(key: string, value: string)
    requires '\n' !in key && '\n' !in value
    ensures '\n' !in FieldLine(key, value)
  {
  }

  /** In the header the only line breaks are the two between the lines, and
      they precede `d` and `t`. */
  lemma BlockBreaks(title: string, date: string, tagsStr: string)
    requires '\n' !in title && '\n' !in date && '\n' !in tagsStr
    ensures var b := Block(title, date, tagsStr);
      forall i :: 0 <= i < |b| && b[i] == '\n' ==> i + 1 < |b| && b[i + 1] != '-'
  {
    var t, d, g := FieldLine("title", title), FieldLine("date", date), FieldLine("tags", tagsStr);
    FieldLineSingle("title", title);
    FieldLineSingle("date", date);
    FieldLineSingle("tags", tagsStr);
    var b := Block(title, date, tagsStr);
    assert b == t + "\n" + d + "\n" + g;
    var s1, s2 := |t|, |t| + 1 + |d|;
    assert b[s1 + 1] == d[0] == 'd';
    assert b[s2 + 1] == g[0] == 't';
    forall i | 0 <= i < |b| && i != s1 && i != s2 ensures b[i] != '\n' {
      if i < s1 {
        assert b[i] == t[i] && t[i] in t;
      } else if i < s2 {
        assert b[i] == d[i - s1 - 1] && d[i - s1 - 1] in d;
      } else {
        assert b[i] == g[i - s2 - 1] && g[i - s2 - 1] in g;
      }
    }
  }

  /** The header splits into its three lines. */
  lemma BlockLines(title: string, date: string, tagsStr: string)
    requires '\n' !in title && '\n' !in date && '\n' !in tagsStr
    ensures Split(Block(title, date, tagsStr), '\n')
      == [FieldLine("title", title), FieldLine("date", date), FieldLine("tags", tagsStr)]
  {
    var t, d, g := FieldLine("title", title), FieldLine("date", date), FieldLine("tags", tagsStr);
    FieldLineSingle("title", title);
    FieldLineSingle("date", date);
    FieldLineSingle("tags", tagsStr);
    var ls := [t, d, g];
    SplitJoin(ls, '\n');
    assert ls[1..] == [d, g] && ls[1..][1..] == [g];
    assert Join(ls, "\n") == Block(title, date, tagsStr);
  }

  /** A `key: value` line reads as the key and the trimmed value. */
  lemma KeyLine(key: string, value: string)
    requires ':' !in key && IsTrimmed(key) && key != ""
    ensures KeyValue(FieldLine(key, value)) == Some((key, Trim(value)))
  {
    var line := FieldLine(key, value);
    assert line[|key|] == ':';
    assert line[..|key|] == key;
    var c := FirstIndex(line, ':');
    assert c == |key|;
    assert line[c + 1..] == " " + value;
    TrimOfTrimmed(key);
    TrimSkipsLeadingSpace(" ", value);
  }

  /** A plain header line sets its field. */
  lemma ApplyField(m: Meta, key: string, value: string)
    requires ':' !in key && IsTrimmed(key) && key != "" && key != "tags"
    ensures ApplyLine(m, FieldLine(key, value)) == m.(fields := m.fields[key := Trim(value)])
  {
    KeyLine(key, value);
  }

  /** The `tags` line sets the tags. */
  lemma ApplyTagsLine(m: Meta, key: string, value: string)
    requires key == "tags"
    ensures ApplyLine(m, FieldLine(key, value)) == m.(tags := Some(TagsOf(Trim(value))))
  {
    KeyLine(key, value);
  }

  lemma MetaOfThree(a: string, b: string, c: string)
    ensures MetaOf([a, b, c]) == ApplyLine(ApplyLine(ApplyLine(EmptyMeta, a), b), c)
  {
    assert [a, b, c][..2] == [a, b];
    assert [a, b][..1] == [a];
    assert [a][..0] == [];
    assert MetaOf([a]) == ApplyLine(EmptyMeta, a);
    assert MetaOf([a, b]) == ApplyLine(MetaOf([a]), b);
    assert MetaOf([a, b, c]) == ApplyLine(MetaOf([a, b]), c);
  }

  /** The three header lines set the title, the date and the tags. */
  lemma HeaderMeta(title: string, date: string, tagsStr: string)
    ensures MetaOf([FieldLine("title", title), FieldLine("date", date), FieldLine("tags", tagsStr)])
      == Meta(map["title" := Trim(title), "date" := Trim(date)], Some(TagsOf(Trim(tagsStr))))
  {
    var t, d, g := FieldLine("title", title), FieldLine("date", date), FieldLine("tags", tagsStr);
    MetaOfThree(t, d, g);
    ApplyField(EmptyMeta, "title", title);
    var m1 := ApplyLine(EmptyMeta, t);
    assert m1 == Meta(map["title" := Trim(title)], None);
    ApplyField(m1, "date", date);
    var m2 := ApplyLine(m1, d);
    assert m2 == Meta(map["title" := Trim(title), "date" := Trim(date)], None);
    ApplyTagsLine(m2, "tags", tagsStr);
  }

  /** The lines of a heading between blank lines. */
  lemma HeadingLines(h: string)
    requires '\n' !in h && '\r' !in h
    ensures Lines("\n" + h + "\n" + "\n") == ["", h, "", ""]
  {
    var ls := ["", h, "", ""];
    assert ls[1..] == [h, "", ""] && ls[2..] == ["", ""] && ls[2..][1..] == [""];
    assert ls[1..][1..] == ls[2..];
    assert Join(ls[2..], "\n") == "\n";
    assert Join(ls[1..], "\n") == h + "\n" + "\n";
    assert Join(ls, "\n") == "\n" + h + "\n" + "\n";
    SplitJoin(ls, '\n');
    assert '\r' !in "\n" + h + "\n" + "\n";
  }

  /** A heading between blank lines strips to nothing. */
  lemma HeadingAloneStrips(h: string)
    requires IsH1(h) && '\n' !in h && '\r' !in h
    ensures StripH1("\n" + h + "\n" + "\n") == ""
  {
    var ls := ["", h, "", ""];
    HeadingLines(h);
    TrimOfTrimmed("");
    assert IsBlank("");
    H1NotBlank(h);
    assert SkipBlank(ls, 0) == 1;
    assert SkipBlank(ls, 2) == 4;
    assert ls[4..] == [];
  }

  /** The body after the header is the heading alone, which
      `stripLeadingH1` removes. */
  lemma TailStrips(title: string)
    requires '\n' !in title && '\r' !in title
    ensures StripH1(Tail(title)) == ""
  {
    var h := "# " + title;
    assert IsH1(h);
    HeadingAloneStrips(h);
  }

  /** The header of a new post, read back by `parseFrontmatter`: the title
      and the date come back trimmed, the tags are read from `tagsStr`, and
      nothing else is set; the body is the heading alone, which
      `stripLeadingH1` removes. */
  lemma ContentParses(title: string, date: string, tagsStr: string)
    requires '\n' !in title && '\r' !in title && '\n' !in date && '\r' !in date
    requires '\n' !in tagsStr && '\r' !in tagsStr
    ensures FrontmatterOf(Content(title, date, tagsStr)).0
      == Meta(map["title" := Trim(title), "date" := Trim(date)], Some(TagsOf(Trim(tagsStr))))
    ensures StripH1(FrontmatterOf(Content(title, date, tagsStr)).1) == ""
  {
    var content := Content(title, date, tagsStr);
    var block := Block(title, date, tagsStr);
    var tail := Tail(title);
    ContentShape(title, date, tagsStr);
    assert '\r' !in block;
    assert '\r' !in tail;
    assert '\r' !in content;
    assert NormalizeNewlines(content) == content;
    BlockBreaks(title, date, tagsStr);
    FirstClose(block, tail);
    BlockLines(title, date, tagsStr);
    HeaderMeta(title, date, tagsStr);
    TailStrips(title);
  }

  /** A bracketed one-line text with something inside is a list value. */
  lemma Bracketed(inner: string)
    requires inner != [] && SingleLine(inner)
    ensures BracketForm("[" + inner + "]")
    ensures Trim("[" + inner + "]") == "[" + inner + "]"
    ensures ("[" + inner + "]")[1..|inner| + 1] == inner
  {
    var s := "[" + inner + "]";
    assert IsTrimmed(s);
    TrimOfTrimmed(s);
    forall i | 1 <= i < |s| - 1 ensures !IsLineTerminator(s[i]) {
      assert s[i] == inner[i - 1];
    }
    assert s[1..|inner| + 1] == inner;
  }

  lemma JoinNotEmpty(tags: seq<string>, sep: string)
    requires tags != [] && tags[0] != ""
    ensures Join(tags, sep) != []
  {
    if |tags| > 1 {
      assert |Join(tags, sep)| >= |tags[0]|;
    }
  }

  /** `tagsStr` of a non-empty tag list reads back as that list. */
  lemma TagsStrRoundTrip(tags: seq<string>)
    requires tags != []
    requires forall i :: 0 <= i < |tags| ==>
      tags[i] != "" && IsTrimmed(tags[i]) && ',' !in tags[i] && SingleLine(tags[i])
    ensures TagsOf(Trim(TagsStr(tags))) == tags
  {
    var inner := Join(tags, ", ");
    JoinSingleLine(tags, ", ");
    JoinNotEmpty(tags, ", ");
    assert TagsStr(tags) == "[" + inner + "]";
    Bracketed(inner);
    SplitListJoin(tags);
  }

  /** No tags are written as `[]`, which reads back as the one tag `"[]"`:
      `[]` has no character between the brackets, so it is not a list. */
  lemma NoTagsReadBack()
    ensures TagsOf(Trim(TagsStr([]))) == ["[]"]
  {
    assert IsTrimmed("[]");
    TrimOfTrimmed("[]");
    EmptyBracketsIsOneTag();
  }

  /** One line has neither of the two line ends. */
  lemma SingleLineNoBreak(s: string)
    requires SingleLine(s)
    ensures '\n' !in s && '\r' !in s
  {
    forall i | 0 <= i < |s| ensures s[i] != '\n' && s[i] != '\r' {
      assert !IsLineTerminator(s[i]);
    }
  }

  /** The tags of a one-line option are each one line. */
  lemma TagsOptionSingleLine(tagsOpt: Option<string>)
    requires tagsOpt.Some? ==> SingleLine(tagsOpt.value)
    ensures forall i :: 0 <= i < |TagsOption(tagsOpt)| ==> SingleLine(TagsOption(tagsOpt)[i])
  {
    if tagsOpt.Some? && tagsOpt.value != "" {
      forall i | 0 <= i < |SplitList(tagsOpt.value)| ensures SingleLine(SplitList(tagsOpt.value)[i]) {
        SplitListSingleLine(tagsOpt.value, i);
      }
    }
  }

  /** `tagsStr` of one-line tags is one line. */
  lemma TagsStrSingleLine(tags: seq<string>)
    requires forall i :: 0 <= i < |tags| ==> SingleLine(tags[i])
    ensures SingleLine(TagsStr(tags))
  {
    if tags != [] {
      var inner := Join(tags, ", ");
      JoinSingleLine(tags, ", ");
      var s := "[" + inner + "]";
      forall i | 0 <= i < |s| ensures !IsLineTerminator(s[i]) {
        if 0 < i < |s| - 1 {
          assert s[i] == inner[i - 1];
        }
      }
    }
  }

  /** The tags from a one-line option make a one-line `tagsStr` that reads
      back as those tags, or as `"[]"` when there are none. */
  lemma OptionTagsReadBack(tagsOpt: Option<string>)
    requires tagsOpt.Some? ==> SingleLine(tagsOpt.value)
    ensures var tags := TagsOption(tagsOpt);
      && SingleLine(TagsStr(tags))
      && TagsOf(Trim(TagsStr(tags))) == if tags == [] then ["[]"] else tags
  {
    var tags := TagsOption(tagsOpt);
    TagsOptionClean(tagsOpt);
    TagsOptionSingleLine(tagsOpt);
    TagsStrSingleLine(tags);
    if tags != [] {
      TagsStrRoundTrip(tags);
    } else {
      NoTagsReadBack();
    }
  }

  /** The round trip of the command: for a one-line title, date and tags
      option, the written file parses back to the trimmed title and date and
      to the tags of the option (the single tag `"[]"` when there are none),
      and its body strips to nothing. */
  lemma ScaffoldRoundTrip(title: string, tagsOpt: Option<string>, dateOpt: Option<string>, today: string)
    requires SingleLine(title) && SingleLine(DateOption(dateOpt, today))
    requires tagsOpt.Some? ==> SingleLine(tagsOpt.value)
    ensures var tags := TagsOption(tagsOpt);
      var date := DateOption(dateOpt, today);
      var (meta, body) := FrontmatterOf(Content(title, date, TagsStr(tags)));
      && meta.fields == map["title" := Trim(title), "date" := Trim(date)]
      && meta.tags == Some(if tags == [] then ["[]"] else tags)
      && StripH1(body) == ""
  {
    var tags := TagsOption(tagsOpt);
    var date := DateOption(dateOpt, today);
    OptionTagsReadBack(tagsOpt);
    SingleLineNoBreak(title);
    SingleLineNoBreak(date);
    SingleLineNoBreak(TagsStr(tags));
    ContentParses(title, date, TagsStr(tags));
  }

  /** A tag split from a one-line option is one line. */
  lemma SplitListSingleLine(s: string, i: nat)
    requires SingleLine(s) && i < |SplitList(s)|
    ensures SingleLine(SplitList(s)[i])
  {
    var parts := Split(s, ',');
    forall j | 0 <= j < |parts| ensures SingleLine(parts[j]) {
      JoinPartChars(parts, j);
      forall k | 0 <= k < |parts[j]| ensures !IsLineTerminator(parts[j][k]) {
        assert parts[j][k] in parts[j];
      }
    }
    CleanPartsSingleLine(parts);
  }

  lemma {:induction false} CleanPartsSingleLine(parts: seq<string>)
    requires forall j :: 0 <= j < |parts| ==> ',' !in parts[j] && SingleLine(parts[j])
    ensures forall j :: 0 <= j < |CleanParts(parts)| ==> SingleLine(CleanParts(parts)[j])
  {
    if parts != [] {
      CleanPartsSingleLine(parts[1..]);
      var a := LeadingSpace(parts[0]);
      var t := Trim(parts[0]);
      forall k | 0 <= k < |t| ensures !IsLineTerminator(t[k]) {
        assert t[k] == parts[0][a + k];
      }
    }
  }
}

/** `list` of lib/commands/list.mjs: the posts table printed by `venblog
    list`, with its visual-width helpers `pad` and `truncate`. Characters
    are code points; one whose code is above 0x7f counts as two columns. */
module Listing {
  import opened Text
  import opened Sorting
  import opened Frontmatter
  import opened Heading
  import opened ReadingTime
  import opened Dates
  import opened Templates
  import opened Posts
  import Builder

  // ------------------------------------------------------------ visual width

  /** The columns one character takes. */
  function Width(c: char): nat {
    if c as int > 0x7f then 2 else 1
  }

  /** The columns a string takes. */
  function Vis(s: string): nat {
    if s == [] then 0 else Vis(s[..|s| - 1]) + Width(s[|s| - 1])
  }

  lemma {:induction false} VisAppend(a: string, b: string)
    ensures Vis(a + b) == Vis(a) + Vis(b)
    decreases |b|
  {
    if b == [] {
      assert a + b == a;
    } else {
      var b' := b[..|b| - 1];
      assert (a + b)[..|a + b| - 1] == a + b';
      VisAppend(a, b');
    }
  }

  lemma {:induction false} VisSpaces(n: nat)
    ensures Vis(Repeat(' ', n)) == n
  {
    if n > 0 {
      VisSpaces(n - 1);
      VisAppend([' '], Repeat(' ', n - 1));
      assert [' '] + Repeat(' ', n - 1) == Repeat(' ', n);
    }
  }

  // --------------------------------------------------------------------- pad

  /** `Math.max(0, width - visualLen)`. */
  function Padding(s: string, width: int): nat {
    if width > Vis(s) then width - Vis(s) else 0
  }

  /** `pad(str, width)` as a value. */
  function Padded(s: string, width: int): string {
    s + Repeat(' ', Padding(s, width))
  }

  /** The padded string is the string followed by spaces only, and is
      `max(width, vis(s))` columns wide. */
  lemma PaddedShape(s: string, width: int)
    ensures Padded(s, width)[..|s|] == s
    ensures forall i :: |s| <= i < |Padded(s, width)| ==> Padded(s, width)[i] == ' '
    ensures Vis(Padded(s, width)) == if width > Vis(s) then width else Vis(s)
  {
    var n := Padding(s, width);
    VisSpaces(n);
    VisAppend(s, Repeat(' ', n));
    assert (s + Repeat(' ', n))[..|s|] == s;
  }

  /** The loop of `pad`, summing the widths. */
  method Pad(str: string, width: int) returns (r: string)
    ensures r == Padded(str, width)
  {
    var visualLen := 0;
    var i := 0;
    while i < |str|
      invariant 0 <= i <= |str|
      invariant visualLen == Vis(str[..i])
    {
      assert str[..i + 1][..i] == str[..i];
      visualLen := visualLen + (if str[i] as int > 0x7f then 2 else 1);
      i := i + 1;
    }
    assert str[..|str|] == str;
    var padding := if width - visualLen > 0 then width - visualLen else 0;
    r := str + Repeat(' ', padding);
  }

  // ---------------------------------------------------------------- truncate

  /** How many leading characters fit, one after another, in `budget`
      columns. */
  function FitLen(s: string, budget: int): (k: nat)
    ensures k <= |s|
  {
    if s == [] || Width(s[0]) > budget then 0 else 1 + FitLen(s[1..], budget - Width(s[0]))
  }

  /** `truncate(str, maxVisualWidth)` as a value: the string itself when every
      character fits in `maxVisualWidth - 1` columns, otherwise the
      characters that fit followed by `…`. */
  function Truncated(s: string, maxVisualWidth: int): string {
    var k := FitLen(s, maxVisualWidth - 1);
    if k == |s| then s else s[..k] + "…"
  }

  /** All characters fit exactly when their width does (or there are none);
      the ones that fit are within the budget, and one more would not be. */
  lemma {:induction false} FitLenSpec(s: string, b: int)
    ensures FitLen(s, b) == |s| <==> Vis(s) <= b || s == []
    ensures FitLen(s, b) > 0 ==> Vis(s[..FitLen(s, b)]) <= b
    ensures FitLen(s, b) < |s| ==> Vis(s[..FitLen(s, b) + 1]) > b
  {
    if s != [] {
      var c, t := s[0], s[1..];
      assert s == [c] + t;
      VisAppend([c], t);
      assert Vis([c]) == Width(c) by { assert [c][..0] == []; }
      if Width(c) <= b {
        var k' := FitLen(t, b - Width(c));
        FitLenSpec(t, b - Width(c));
        assert s[..k' + 1] == [c] + t[..k'];
        VisAppend([c], t[..k']);
        if k' < |t| {
          assert s[..k' + 2] == [c] + t[..k' + 1];
          VisAppend([c], t[..k' + 1]);
        }
      } else {
        assert s[..1] == [c];
      }
    }
  }

  /** A string that fits is returned unchanged. */
  lemma TruncateKeeps(s: string, maxVisualWidth: int)
    requires Vis(s) <= maxVisualWidth - 1 || s == []
    ensures Truncated(s, maxVisualWidth) == s
  {
    FitLenSpec(s, maxVisualWidth - 1);
  }

  /** A non-empty string that does not fit is cut to a proper prefix within
      `maxVisualWidth - 1` columns, the longest one, followed by `…`. */
  lemma TruncateCuts(s: string, maxVisualWidth: int)
    requires Vis(s) > maxVisualWidth - 1 && s != []
    ensures FitLen(s, maxVisualWidth - 1) < |s|
    ensures Truncated(s, maxVisualWidth) == s[..FitLen(s, maxVisualWidth - 1)] + "…"
    ensures Vis(s[..FitLen(s, maxVisualWidth - 1)]) <= maxVisualWidth - 1
            || FitLen(s, maxVisualWidth - 1) == 0
    ensures Vis(s[..FitLen(s, maxVisualWidth - 1) + 1]) > maxVisualWidth - 1
  {
    FitLenSpec(s, maxVisualWidth - 1);
  }

  /** A string that overflows only by a final `…` comes back equal to
      itself although it was cut. */
  lemma TruncateEllipsisCorner()
    ensures Vis("ab…") > 4 - 1 && Truncated("ab…", 4) == "ab…"
  {
    assert "ab…"[1..] == "b…" && "b…"[1..] == "…";
    assert FitLen("ab…", 3) == 2;
    assert "ab…"[..2] == "ab";
    assert "ab…"[..2] == "ab…"[..|"ab…"| - 1];
    assert "ab"[..1] == "a";
  }

  /** The loop of `truncate`, stopping at the first character that does not
      fit. */
  method Truncate(str: string, maxVisualWidth: int) returns (r: string)
    ensures r == Truncated(str, maxVisualWidth)
  {
    var visualLen := 0;
    var i := 0;
    while i < |str|
      invariant 0 <= i <= |str|
      invariant visualLen == Vis(str[..i])
      invariant FitLen(str, maxVisualWidth - 1) == i + FitLen(str[i..], maxVisualWidth - 1 - visualLen)
    {
      var w := if str[i] as int > 0x7f then 2 else 1;
      if visualLen + w > maxVisualWidth - 1 {
        return str[..i] + "…";
      }
      assert str[i..][1..] == str[i + 1..];
      assert str[..i + 1][..i] == str[..i];
      visualLen := visualLen + w;
      i := i + 1;
    }
    return str;
  }

  /** A title cell is always exactly 28 columns: the truncated title takes at
      most 27. */
  lemma TitleColumn(title: string)
    ensures Vis(Padded(Truncated(title, 26), 28)) == 28
  {
    var t := Truncated(title, 26);
    if Vis(title) <= 25 || title == [] {
      TruncateKeeps(title, 26);
    } else {
      TruncateCuts(title, 26);
      var k := FitLen(title, 25);
      VisAppend(title[..k], "…");
      assert Vis("…") == 2 by { assert "…"[..0] == []; }
    }
    PaddedShape(t, 28);
  }

  // ----------------------------------------------------------------- records

  /** The record `list` builds: as in `build`, but the reading time is taken
      on the body with its heading. */
  function ListRecord(name: string, raw: string): Post {
    Record(name, FrontmatterOf(raw).0, EstimateReadingTime(FrontmatterOf(raw).1))
  }

  /** The body after the header has no carriage return. */
  lemma BodyHasNoCr(raw: string)
    ensures '\r' !in FrontmatterOf(raw).1
  {
    var n := NormalizeNewlines(raw);
    var split := SplitFrontmatter(n);
    if split.Some? {
      var (block, body) := split.value;
      assert n == Open + block + Close + body;
      forall i | 0 <= i < |body| ensures body[i] != '\r' {
        assert body[i] == n[|Open + block + Close| + i];
      }
    }
  }

  /** `list` and `build` make the same record of a post, except for the
      reading time; when the body has no leading heading, the same record. */
  lemma ListAgreesWithBuild(name: string, raw: string)
    ensures ListRecord(name, raw).(readingTime := 0) == Builder.PostOf(name, raw).(readingTime := 0)
    ensures !HasLeadingH1(Lines(FrontmatterOf(raw).1)) ==> ListRecord(name, raw) == Builder.PostOf(name, raw)
  {
    var body := FrontmatterOf(raw).1;
    if !HasLeadingH1(Lines(body)) {
      StripH1KeepsPlainBody(body);
      BodyHasNoCr(raw);
      assert Builder.Cleaned(raw) == body;
    }
  }

  // ------------------------------------------------------------------- table

  /** What `list` prints: a warning when `posts/` cannot be listed, a note
      when there is no post, the table otherwise; a read that throws
      rejects the command. */
  datatype ListOutcome =
    | MissingDir
    | NoPosts
    | ReadFailed
    | Table(posts: seq<Post>, lines: seq<string>)

  const MissingDirMessage := "posts/ 目录不存在"
  const NoPostsMessage := "暂无博文"

  function CountLine(n: nat): string {
    "共 " + NatToString(n) + " 篇博文"
  }

  const HeaderLine := "  " + Padded("#", 4) + Padded("标题", 28) + Padded("日期", 14) + Padded("阅读", 8) + "标签"

  const RuleLine := "  " + Repeat('─', 76)

  /** `formatDateShort(p.date) || "—"`. */
  function DateCell(date: string): string {
    if FormatDateShort(date) != "" then FormatDateShort(date) else "—"
  }

  function TagCell(tags: seq<string>): string {
    if |tags| > 0 then Join(tags, ", ") else ""
  }

  /** The row of the `i`-th post (numbered from 1), colours left out. */
  function Row(i: nat, p: Post): string {
    "  " + Padded(NatToString(i + 1), 4) + Padded(Truncated(p.title, 26), 28)
    + Padded(DateCell(p.date), 14) + Padded(NatToString(p.readingTime) + "min", 8) + TagCell(p.tags)
  }

  /** `f` applied to each element and its index. */
  function Indexed<T, U>(xs: seq<T>, f: (nat, T) -> U): (r: seq<U>)
    ensures |r| == |xs| && forall i :: 0 <= i < |xs| ==> r[i] == f(i, xs[i])
  {
    seq(|xs|, i requires 0 <= i < |xs| => f(i, xs[i]))
  }

  lemma IndexedNext<T, U>(xs: seq<T>, k: nat, f: (nat, T) -> U)
    requires k < |xs|
    ensures Indexed(xs[..k + 1], f) == Indexed(xs[..k], f) + [f(k, xs[k])]
  {
  }

  /** One row per post, numbered in order. */
  function Rows(posts: seq<Post>): seq<string> {
    Indexed(posts, Row)
  }

  lemma RowsAt(posts: seq<Post>, i: nat)
    requires i < |posts|
    ensures |Rows(posts)| == |posts| && Rows(posts)[i] == Row(i, posts[i])
  {
  }

  /** `list` as a value. */
  function ListOf(listing: Option<seq<DirEntry>>, files: map<string, string>): ListOutcome {
    match listing
    case None => MissingDir
    case Some(entries) =>
      var names := MdNames(entries);
      if names == [] then NoPosts
      else
        var raws := Reads(names, files);
        if |raws| < |names| then ReadFailed
        else
          var posts := ByDate(Zip(names, raws, ListRecord));
          Table(posts, [CountLine(|posts|), HeaderLine, RuleLine] + Rows(posts))
  }

  /** The values the loop body computes for one file are its record. */
  lemma ListPushed(name: string, raw: string, meta: Meta, body: string, title: string,
                   date: string, tags: seq<string>, readingTime: nat)
    requires (meta, body) == FrontmatterOf(raw)
    requires title == FieldOr(meta, "title", Slug(name)) && date == FieldOr(meta, "date", "")
    requires tags == TagsOr(meta) && readingTime == EstimateReadingTime(body)
    ensures Post(Slug(name), title, date, tags, readingTime) == ListRecord(name, raw)
  {
  }

  /** The body of the first loop for one file: parse it and build its
      record. */
  method ReadPost(fileName: string, raw: string) returns (post: Post)
    ensures post == ListRecord(fileName, raw)
  {
    var meta, body := ParseFrontmatter(raw);
    var slug := Slug(fileName);
    var title := FieldOr(meta, "title", slug);
    var date := FieldOr(meta, "date", "");
    var tags := TagsOr(meta);
    var readingTime := EstimateReadingTime(body);
    ListPushed(fileName, raw, meta, body, title, date, tags, readingTime);
    post := Post(slug, title, date, tags, readingTime);
  }

  /** One table row, built with `pad` and `truncate`. */
  method RenderRow(i: nat, p: Post) returns (line: string)
    ensures line == Row(i, p)
  {
    var num := Pad(NatToString(i + 1), 4);
    var short := Truncate(p.title, 26);
    var title := Pad(short, 28);
    var date := Pad(DateCell(p.date), 14);
    var time := Pad(NatToString(p.readingTime) + "min", 8);
    var tags := if |p.tags| > 0 then Join(p.tags, ", ") else "";
    line := "  " + num + title + date + time + tags;
  }

  /** The header, built with `pad`. */
  method RenderHeader() returns (header: string)
    ensures header == HeaderLine
  {
    var h0 := Pad("#", 4);
    var h1 := Pad("标题", 28);
    var h2 := Pad("日期", 14);
    var h3 := Pad("阅读", 8);
    header := "  " + h0 + h1 + h2 + h3 + "标签";
  }

  /** The first loop of `list`: read and parse each Markdown file in name
      order, pushing its record; `ok` is false when a read throws. */
  method ReadPosts(mdFiles: seq<string>, files: map<string, string>)
    returns (ok: bool, posts: seq<Post>)
    ensures ok <==> |Reads(mdFiles, files)| == |mdFiles|
    ensures ok ==> posts == Zip(mdFiles, Reads(mdFiles, files), ListRecord)
  {
    posts := [];
    var i := 0;
    while i < |mdFiles|
      invariant 0 <= i <= |mdFiles|
      invariant |Reads(mdFiles[..i], files)| == i
      invariant posts == Zip(mdFiles, Reads(mdFiles[..i], files), ListRecord)
    {
      var fileName := mdFiles[i];
      if fileName !in files {
        ReadsStop(mdFiles, i, files);
        return false, posts;
      }
      var raw := files[fileName];
      var post := ReadPost(fileName, raw);
      ZipReadsNext(mdFiles, i, files, ListRecord);
      posts := posts + [post];
      i := i + 1;
    }
    assert mdFiles[..|mdFiles|] == mdFiles;
    ok := true;
  }

  /** The second loop of `list`: one row per post. */
  method RenderRows(posts: seq<Post>) returns (rows: seq<string>)
    ensures rows == Rows(posts)
  {
    ghost var f := Row;
    rows := [];
    var k := 0;
    while k < |posts|
      invariant 0 <= k <= |posts|
      invariant rows == Indexed(posts[..k], f)
    {
      var row := RenderRow(k, posts[k]);
      IndexedNext(posts, k, f);
      rows := rows + [row];
      k := k + 1;
    }
    assert posts[..|posts|] == posts;
  }

  /** `list`: the directory check, the reading loop, the sort and the
      table. */
  method List(listing: Option<seq<DirEntry>>, files: map<string, string>) returns (out: ListOutcome)
    ensures out == ListOf(listing, files)
  {
    if listing.None? {
      return MissingDir;
    }
    var mdFiles := MdNames(listing.value);
    if |mdFiles| == 0 {
      return NoPosts;
    }
    var ok, posts := ReadPosts(mdFiles, files);
    if !ok {
      return ReadFailed;
    }
    posts := ByDate(posts);
    var header := RenderHeader();
    var rows := RenderRows(posts);
    return Table(posts, [CountLine(|posts|), header, "  " + Repeat('─', 76)] + rows);
  }

  // ------------------------------------------------------------- properties

  /** Without a `posts/` directory only the warning is printed. */
  lemma ListMissingDir(files: map<string, string>)
    ensures ListOf(None, files) == MissingDir
  {
  }

  /** With no Markdown file only the note is printed; there are no rows. */
  lemma ListNothing(entries: seq<DirEntry>, files: map<string, string>)
    requires forall i :: 0 <= i < |entries| ==> !IsMarkdown(entries[i])
    ensures ListOf(Some(entries), files) == NoPosts
  {
    NoMarkdown(entries);
  }

  /** When every post can be read, the table is the count line, the header,
      the rule and one row per Markdown file, numbered in the listed
      order; the listed posts are the records of the files in date order. */
  lemma ListTable(entries: seq<DirEntry>, files: map<string, string>)
    requires forall e :: e in entries && IsMarkdown(e) ==> e.name in files
    requires exists e :: e in entries && IsMarkdown(e)
    ensures var names := MdNames(entries);
      var out := ListOf(Some(entries), files);
      var records := Zip(names, Reads(names, files), ListRecord);
      && out.Table?
      && |records| == |names|
      && (forall i :: 0 <= i < |names| ==>
            names[i] in files && records[i] == ListRecord(names[i], files[names[i]]))
      && out.posts == ByDate(records)
      && |out.posts| == |names|
      && out.lines == [CountLine(|names|), HeaderLine, RuleLine] + Rows(out.posts)
  {
    var names := MdNames(entries);
    ListedNames(entries, files);
    ListOfTable(entries, files);
    ByDateOrder(Zip(names, Reads(names, files), ListRecord));
    assert |multiset(ByDate(Zip(names, Reads(names, files), ListRecord)))| == |names|;
  }

  /** The listed posts are all records, dated ones first and newest first,
      with posts the order cannot tell apart in file name order. */
  lemma ListOrder(entries: seq<DirEntry>, files: map<string, string>)
    requires forall e :: e in entries && IsMarkdown(e) ==> e.name in files
    requires exists e :: e in entries && IsMarkdown(e)
    ensures var names := MdNames(entries);
      var out := ListOf(Some(entries), files);
      var records := Zip(names, Reads(names, files), ListRecord);
      && out.Table?
      && multiset(out.posts) == multiset(records)
      && (forall i, j :: 0 <= i < j < |out.posts| && out.posts[j].date != "" ==>
            out.posts[i].date != "" && !StrLess(out.posts[i].date, out.posts[j].date))
      && (forall e :: Equivs(out.posts, e, PostLess) == Equivs(records, e, PostLess))
  {
    var names := MdNames(entries);
    ListedNames(entries, files);
    ListOfTable(entries, files);
    ByDateOrder(Zip(names, Reads(names, files), ListRecord));
  }

  /** Every Markdown file readable: there is at least one name and each is read. */
  lemma ListedNames(entries: seq<DirEntry>, files: map<string, string>)
    requires forall e :: e in entries && IsMarkdown(e) ==> e.name in files
    requires exists e :: e in entries && IsMarkdown(e)
    ensures var names := MdNames(entries);
      && names != [] && |Reads(names, files)| == |names|
      && forall i :: 0 <= i < |names| ==> names[i] in files && Reads(names, files)[i] == files[names[i]]
  {
    var names := MdNames(entries);
    MdNamesOrder(entries);
    var e :| e in entries && IsMarkdown(e);
    assert e.name in names;
    forall i | 0 <= i < |names| ensures names[i] in files {
      assert names[i] in names;
    }
    ReadsAll(names, files);
  }

  /** With every name read, `list` prints the table of the records in date order. */
  lemma ListOfTable(entries: seq<DirEntry>, files: map<string, string>)
    requires MdNames(entries) != [] && |Reads(MdNames(entries), files)| == |MdNames(entries)|
    ensures var posts := ByDate(Zip(MdNames(entries), Reads(MdNames(entries), files), ListRecord));
      ListOf(Some(entries), files) == Table(posts, [CountLine(|posts|), HeaderLine, RuleLine] + Rows(posts))
  {
  }

  /** The date column shows `—` exactly for an empty date (or a date that is
      itself `—`), and otherwise the short form. */
  lemma DateCellDash(date: string)
    ensures DateCell(date) == "—" <==> date == "" || date == "—"
    ensures date != "" ==> DateCell(date) == FormatDateShort(date)
  {
    if date == "—" {
      assert MatchDate(date).None?;
    }
  }

  /** The tag column splits back into the tags (for tags as the header
      parser leaves them), and is empty when there are none. */
  lemma TagCellSplits(tags: seq<string>)
    requires forall i :: 0 <= i < |tags| ==> tags[i] != "" && IsTrimmed(tags[i]) && ',' !in tags[i]
    ensures SplitList(TagCell(tags)) == tags
    ensures TagCell(tags) == "" <==> tags == []
  {
    if tags != [] {
      var cell := Join(tags, ", ");
      assert TagCell(tags) == cell;
      SplitListJoin(tags);
      if |tags| > 1 {
        JoinCons(tags[0], tags[1..], ", ");
        assert [tags[0]] + tags[1..] == tags;
      }
      assert |cell| >= |tags[0]|;
    } else {
      assert Split("", ',') == [""];
      assert Trim("") == "";
      assert CleanParts([""]) == [] + CleanParts([""][1..]);
    }
  }
}

/** `parseFrontmatter` of scripts/build.mjs: a `---`-delimited block of
    `key: value` lines in front of a Markdown body, with one special rule for
    `tags`. */
module Frontmatter {
  import opened Text

  /** The parsed header: plain string fields, and `tags` when a `tags` line was
      seen. A `tags` line never lands in `fields`. */
  datatype Meta = Meta(fields: map<string, string>, tags: Option<seq<string>>)

  const EmptyMeta := Meta(map[], None)

  const Open := "---\n"
  const Close := "\n---\n"

  /** Cuts the normalised text into header block and body: it must start with
      `---\n`, and the block ends at the first `\n---\n` found from index 4. */
  function SplitFrontmatter(n: string): (r: Option<(string, string)>)
    ensures r.Some? ==> Open + r.value.0 + Close + r.value.1 == n
    ensures r.Some? ==> forall j :: 4 <= j < 4 + |r.value.0| ==> !MatchAt(n, Close, j)
    ensures r.None? ==> !StartsWith(n, Open) || forall j :: 4 <= j ==> !MatchAt(n, Close, j)
  {
    if !StartsWith(n, Open) then None
    else
      var k := IndexOfFrom(n, Close, 4);
      if k == -1 then None
      else
        assert n == n[..4] + n[4..k] + n[k..k + 5] + n[k + 5..];
        Some((n[4..k], n[k + 5..]))
  }

  /** `s.split(",").map((t) => t.trim()).filter(Boolean)`. */
  function SplitList(s: string): (r: seq<string>)
    ensures forall i :: 0 <= i < |r| ==> r[i] != "" && ',' !in r[i]
  {
    CleanParts(Split(s, ','))
  }

  /** Trims every part and drops the empty ones. */
  function CleanParts(parts: seq<string>): (r: seq<string>)
    requires forall i :: 0 <= i < |parts| ==> ',' !in parts[i]
    ensures forall i :: 0 <= i < |r| ==> r[i] != "" && ',' !in r[i]
  {
    if parts == [] then []
    else
      var t := Trim(parts[0]);
      (if t == "" then [] else [t]) + CleanParts(parts[1..])
  }

  /** Every part that survives is trimmed. */
  lemma {:induction false} CleanPartsTrimmed(parts: seq<string>)
    requires forall i :: 0 <= i < |parts| ==> ',' !in parts[i]
    ensures forall i :: 0 <= i < |CleanParts(parts)| ==> IsTrimmed(CleanParts(parts)[i])
  {
    if parts != [] {
      CleanPartsTrimmed(parts[1..]);
      TrimIsTrimmed(parts[0]);
    }
  }

  lemma SplitListTrimmed(s: string)
    ensures forall i :: 0 <= i < |SplitList(s)| ==> IsTrimmed(SplitList(s)[i])
  {
    CleanPartsTrimmed(Split(s, ','));
  }

  /** The value matches `/^\[(.+)]$/`: brackets around at least one character
      and no line terminator inside. */
  predicate BracketForm(v: string) {
    && |v| >= 3 && v[0] == '[' && v[|v| - 1] == ']'
    && forall i :: 1 <= i < |v| - 1 ==> !IsLineTerminator(v[i])
  }

  /** The `tags` rule: a bracketed list is split on commas, anything else is
      a single tag, or no tag when blank. */
  function TagsOf(v: string): (r: seq<string>)
    ensures BracketForm(v) ==> r == SplitList(v[1..|v| - 1])
    ensures !BracketForm(v) ==> r == if v == "" then [] else [v]
  {
    if BracketForm(v) then SplitList(v[1..|v| - 1])
    else if v == "" then []
    else [v]
  }

  /** For a trimmed header value every tag is non-empty and trimmed; a
      bracketed list yields comma-free tags, and a bracket without commas
      yields its trimmed content as the only tag. */
  lemma TagsOfClean(v: string)
    requires IsTrimmed(v)
    ensures forall i :: 0 <= i < |TagsOf(v)| ==> TagsOf(v)[i] != "" && IsTrimmed(TagsOf(v)[i])
    ensures BracketForm(v) ==> forall i :: 0 <= i < |TagsOf(v)| ==> ',' !in TagsOf(v)[i]
    ensures BracketForm(v) && ',' !in v ==>
      var t := Trim(v[1..|v| - 1]);
      TagsOf(v) == if t == "" then [] else [t]
  {
    if BracketForm(v) {
      var inner := v[1..|v| - 1];
      SplitListTrimmed(inner);
      if ',' !in v {
        assert forall c :: c in inner ==> c in v;
        assert Split(inner, ',') == [inner];
        assert CleanParts([inner])
          == (if Trim(inner) == "" then [] else [Trim(inner)]) + CleanParts([inner][1..]);
      }
    }
  }

  /** The key and value of a header line, or `None` when it has no colon. */
  function KeyValue(line: string): (r: Option<(string, string)>)
    ensures r.None? <==> ':' !in line
  {
    if ':' !in line then None
    else
      var c := FirstIndex(line, ':');
      Some((Trim(line[..c]), Trim(line[c + 1..])))
  }

  /** A line with a colon is cut at its first colon: the key is the trimmed
      text before it and the value the trimmed text after it. */
  lemma KeyValueFirstColon(line: string, c: nat)
    requires c < |line| && line[c] == ':' && ':' !in line[..c]
    ensures KeyValue(line) == Some((Trim(line[..c]), Trim(line[c + 1..])))
  {
  }

  /** One pass of the loop body. */
  function ApplyLine(m: Meta, line: string): Meta {
    match KeyValue(line)
    case None => m
    case Some((key, val)) =>
      if key == "tags" then m.(tags := Some(TagsOf(val)))
      else m.(fields := m.fields[key := val])
  }

  /** The meta object after the loop has read `lines` in order. */
  function MetaOf(lines: seq<string>): Meta {
    if lines == [] then EmptyMeta
    else ApplyLine(MetaOf(lines[..|lines| - 1]), lines[|lines| - 1])
  }

  /** `parseFrontmatter(markdown)` as a value: the meta and the body. */
  function FrontmatterOf(markdown: string): (r: (Meta, string))
    ensures SplitFrontmatter(NormalizeNewlines(markdown)).None? ==> r == (EmptyMeta, NormalizeNewlines(markdown))
    ensures SplitFrontmatter(NormalizeNewlines(markdown)).Some? ==>
      var (block, body) := SplitFrontmatter(NormalizeNewlines(markdown)).value;
      r == (MetaOf(Split(block, '\n')), body)
  {
    var n := NormalizeNewlines(markdown);
    match SplitFrontmatter(n)
    case None => (EmptyMeta, n)
    case Some((block, body)) => (MetaOf(Split(block, '\n')), body)
  }

  /** The loop of `parseFrontmatter`, filling `meta` line by line. */
  method ParseFrontmatter(markdown: string) returns (meta: Meta, body: string)
    ensures (meta, body) == FrontmatterOf(markdown)
  {
    var normalized := NormalizeNewlines(markdown);
    var parts := SplitFrontmatter(normalized);
    if parts.None? {
      return EmptyMeta, normalized;
    }
    var lines := Split(parts.value.0, '\n');
    body := parts.value.1;
    meta := EmptyMeta;
    var i := 0;
    while i < |lines|
      invariant 0 <= i <= |lines|
      invariant meta == MetaOf(lines[..i])
    {
      assert lines[..i + 1][..i] == lines[..i];
      assert MetaOf(lines[..i + 1]) == ApplyLine(MetaOf(lines[..i]), lines[i]);
      var kv := KeyValue(lines[i]);
      if kv.Some? {
        var (key, val) := kv.value;
        if key == "tags" {
          meta := meta.(tags := Some(TagsOf(val)));
        } else {
          meta := meta.(fields := meta.fields[key := val]);
        }
      }
      i := i + 1;
    }
    assert lines[..|lines|] == lines;
  }

  /** The key a line sets, if any. */
  function KeyOf(line: string): Option<string> {
    match KeyValue(line)
    case None => None
    case Some((k, _)) => Some(k)
  }

  lemma ApplyLineSets(m: Meta, line: string, key: string, val: string)
    requires key != "tags" && KeyValue(line) == Some((key, val))
    ensures ApplyLine(m, line).fields == m.fields[key := val]
  {
  }

  lemma ApplyLineKeeps(m: Meta, line: string, key: string)
    requires KeyOf(line) != Some(key)
    ensures key in ApplyLine(m, line).fields <==> key in m.fields
    ensures key in m.fields ==> ApplyLine(m, line).fields[key] == m.fields[key]
    ensures key == "tags" ==> ApplyLine(m, line).tags == m.tags
  {
  }

  /** A later line with the same key overwrites an earlier one: a field holds
      the value of the last line that names it. */
  lemma {:induction false} MetaOfLastWins(lines: seq<string>, i: nat, key: string, val: string)
    requires i < |lines| && key != "tags"
    requires KeyValue(lines[i]) == Some((key, val))
    requires forall j :: i < j < |lines| ==> KeyOf(lines[j]) != Some(key)
    ensures key in MetaOf(lines).fields && MetaOf(lines).fields[key] == val
  {
    var init := lines[..|lines| - 1];
    if i < |lines| - 1 {
      MetaOfLastWins(init, i, key, val);
      ApplyLineKeeps(MetaOf(init), lines[|lines| - 1], key);
    } else {
      ApplyLineSets(MetaOf(init), lines[i], key, val);
    }
  }

  /** Likewise the last `tags` line decides the tags. */
  lemma {:induction false} MetaOfLastTags(lines: seq<string>, i: nat, val: string)
    requires i < |lines|
    requires KeyValue(lines[i]) == Some(("tags", val))
    requires forall j :: i < j < |lines| ==> KeyOf(lines[j]) != Some("tags")
    ensures MetaOf(lines).tags == Some(TagsOf(val))
  {
    var init := lines[..|lines| - 1];
    if i < |lines| - 1 {
      MetaOfLastTags(init, i, val);
      ApplyLineKeeps(MetaOf(init), lines[|lines| - 1], "tags");
    }
  }

  /** A key no line names is absent; lines without a colon set nothing. */
  lemma {:induction false} MetaOfAbsent(lines: seq<string>, key: string)
    requires forall j :: 0 <= j < |lines| ==> KeyOf(lines[j]) != Some(key)
    ensures key !in MetaOf(lines).fields
    ensures key == "tags" ==> MetaOf(lines).tags.None?
  {
    if lines != [] {
      MetaOfAbsent(lines[..|lines| - 1], key);
      ApplyLineKeeps(MetaOf(lines[..|lines| - 1]), lines[|lines| - 1], key);
    }
  }

  /** No `tags` line ever writes a plain field called `tags`. */
  lemma {:induction false} MetaOfNoTagsField(lines: seq<string>)
    ensures "tags" !in MetaOf(lines).fields
  {
    if lines != [] {
      MetaOfNoTagsField(lines[..|lines| - 1]);
    }
  }

  /** `[]` has no inner character, so it is read as the single tag `"[]"`. */
  lemma EmptyBracketsIsOneTag()
    ensures TagsOf("[]") == ["[]"]
  {
    assert !BracketForm("[]");
  }

  /** Without the opening `---` line the whole normalised text is the body. */
  lemma NoHeaderFallback(markdown: string)
    requires !StartsWith(NormalizeNewlines(markdown), Open)
    ensures FrontmatterOf(markdown) == (EmptyMeta, NormalizeNewlines(markdown))
  {
  }

  /** `", "`-joined parts, seen by `split(",")`: every part after the first
      keeps the space in front of it. */
  function Spaced(tags: seq<string>): seq<string>
    requires tags != []
  {
    [tags[0]] + seq(|tags| - 1, i requires 0 <= i < |tags| - 1 => " " + tags[i + 1])
  }

  lemma PrefixFirst(w: string, parts: seq<string>, sep: string)
    requires parts != []
    ensures Join([w + parts[0]] + parts[1..], sep) == w + Join(parts, sep)
  {
    if |parts| > 1 {
      JoinCons(w + parts[0], parts[1..], sep);
    }
  }

  lemma {:induction false} JoinCommaSpace(tags: seq<string>)
    requires tags != []
    ensures Join(tags, ", ") == Join(Spaced(tags), ",")
  {
    if |tags| > 1 {
      JoinCommaSpace(tags[1..]);
      var sp := Spaced(tags);
      var rest := Spaced(tags[1..]);
      assert sp[1..] == [" " + rest[0]] + rest[1..];
      PrefixFirst(" ", rest, ",");
      JoinCons(sp[0], sp[1..], ",");
      assert sp == [sp[0]] + sp[1..];
    }
  }

  /** Parts that all trim to non-empty strings come out as those strings. */
  lemma {:induction false} CleanAllKept(parts: seq<string>, tags: seq<string>)
    requires |parts| == |tags|
    requires forall i :: 0 <= i < |parts| ==> ',' !in parts[i]
    requires forall i :: 0 <= i < |parts| ==> Trim(parts[i]) == tags[i] && tags[i] != ""
    ensures CleanParts(parts) == tags
  {
    if parts != [] {
      CleanAllKept(parts[1..], tags[1..]);
      assert CleanParts(parts) == [tags[0]] + CleanParts(parts[1..]);
      assert tags == [tags[0]] + tags[1..];
    }
  }

  lemma SpacedParts(tags: seq<string>)
    requires tags != []
    requires forall i :: 0 <= i < |tags| ==> IsTrimmed(tags[i]) && ',' !in tags[i]
    ensures forall i :: 0 <= i < |Spaced(tags)| ==> ',' !in Spaced(tags)[i] && Trim(Spaced(tags)[i]) == tags[i]
  {
    var sp := Spaced(tags);
    forall i | 0 <= i < |sp| ensures ',' !in sp[i] && Trim(sp[i]) == tags[i] {
      TrimOfTrimmed(tags[i]);
      if i > 0 {
        assert sp[i] == " " + tags[i];
        TrimSkipsLeadingSpace(" ", tags[i]);
      }
    }
  }

  /** Splitting a `", "`-joined list of trimmed, comma-free, non-empty tags
      gives the tags back. */
  lemma SplitListJoin(tags: seq<string>)
    requires tags != []
    requires forall i :: 0 <= i < |tags| ==> tags[i] != "" && IsTrimmed(tags[i]) && ',' !in tags[i]
    ensures SplitList(Join(tags, ", ")) == tags
  {
    JoinCommaSpace(tags);
    SpacedParts(tags);
    var sp := Spaced(tags);
    SplitJoin(sp, ',');
    CleanAllKept(sp, tags);
  }
}

/** What scripts/build.mjs and lib/commands/list.mjs share about the posts
    directory: which entries are posts, in what order they are read, how a
    post's slug and defaults are taken from its file name and header, and
    the date order the posts are listed in. Both files spell these out the
    same way; they are defined once here. */
module Posts {
  import opened Text
  import opened Sorting
  import opened Frontmatter
  import opened Templates

  /** An entry of `readdir(postsDir, { withFileTypes: true })`. */
  datatype DirEntry = DirEntry(name: string, isFile: bool)

  /** The name ends in `.md` in any mix of cases: the test of
      `name.toLowerCase().endsWith(".md")` and of the pattern `/\.md$/i`. */
  predicate HasMdExtension(name: string) {
    |name| >= 3 && LowerAsciiString(name[|name| - 3..]) == ".md"
  }

  /** `d.isFile() && d.name.toLowerCase().endsWith(".md")`. */
  predicate IsMarkdown(e: DirEntry) {
    e.isFile && HasMdExtension(e.name)
  }

  /** The names of the Markdown file entries, in directory order. */
  function MdFilter(entries: seq<DirEntry>): (names: seq<string>)
    ensures |names| <= |entries|
    ensures forall n :: n in names <==> exists e :: e in entries && IsMarkdown(e) && e.name == n
  {
    if entries == [] then []
    else
      var rest := MdFilter(entries[1..]);
      assert forall e :: e in entries <==> e == entries[0] || e in entries[1..];
      if IsMarkdown(entries[0]) then [entries[0].name] + rest else rest
  }

  /** The filtered names sorted with `localeCompare`, modelled as code-point
      order. */
  function MdNames(entries: seq<DirEntry>): seq<string> {
    Sort(MdFilter(entries), StrLess)
  }

  lemma StrLessOrder()
    ensures StrictWeakOrder(StrLess)
  {
    forall x ensures !StrLess(x, x) {
      StrLessIrreflexive(x);
    }
    forall x, y, z | StrLess(x, y) && StrLess(y, z) ensures StrLess(x, z) {
      StrLessTransitive(x, y, z);
    }
    forall x, y, z | !StrLess(x, y) && !StrLess(y, z) ensures !StrLess(x, z) {
      StrLessTotal(x, y);
      StrLessTotal(y, z);
      if StrLess(x, z) {
        if x != y && y != z {
          StrLessTransitive(z, y, x);
          StrLessIrreflexive(x);
          StrLessTransitive(x, z, x);
        }
      }
    }
  }

  /** Exactly the Markdown files are read, each once, in ascending name
      order. */
  lemma MdNamesOrder(entries: seq<DirEntry>)
    ensures multiset(MdNames(entries)) == multiset(MdFilter(entries))
    ensures SortedBy(MdNames(entries), StrLess)
    ensures forall n :: n in MdNames(entries) <==>
      exists e :: e in entries && IsMarkdown(e) && e.name == n
  {
    SortPermutes(MdFilter(entries), StrLess);
    StrLessOrder();
    SortSorted(MdFilter(entries), StrLess);
    forall n ensures n in MdNames(entries) <==> n in MdFilter(entries) {
      assert n in MdNames(entries) <==> n in multiset(MdNames(entries));
      assert n in MdFilter(entries) <==> n in multiset(MdFilter(entries));
    }
  }

  /** With no Markdown file there is nothing to read. */
  lemma NoMarkdown(entries: seq<DirEntry>)
    requires forall i :: 0 <= i < |entries| ==> !IsMarkdown(entries[i])
    ensures MdNames(entries) == []
  {
    NoMarkdownFilter(entries);
  }

  lemma {:induction false} NoMarkdownFilter(entries: seq<DirEntry>)
    requires forall i :: 0 <= i < |entries| ==> !IsMarkdown(entries[i])
    ensures MdFilter(entries) == []
  {
    if entries != [] {
      assert !IsMarkdown(entries[0]);
      forall i | 0 <= i < |entries[1..]| ensures !IsMarkdown(entries[1..][i]) {
        assert entries[1..][i] == entries[i + 1];
      }
      NoMarkdownFilter(entries[1..]);
    }
  }

  /** `fileName.replace(/\.md$/i, "")`. */
  function Slug(name: string): (slug: string)
    ensures HasMdExtension(name) ==> |slug| == |name| - 3 && name == slug + name[|name| - 3..]
    ensures !HasMdExtension(name) ==> slug == name
  {
    if HasMdExtension(name) then name[..|name| - 3] else name
  }

  /** `meta[key] || fallback`: a missing or empty field takes the fallback. */
  function FieldOr(meta: Meta, key: string, fallback: string): (v: string)
    ensures v == fallback || (key in meta.fields && v == meta.fields[key] && v != "")
    ensures key in meta.fields && meta.fields[key] != "" ==> v == meta.fields[key]
  {
    if key in meta.fields && meta.fields[key] != "" then meta.fields[key] else fallback
  }

  /** `meta.tags || []`. */
  function TagsOr(meta: Meta): (tags: seq<string>)
    ensures meta.tags.Some? ==> tags == meta.tags.value
    ensures meta.tags.None? ==> tags == []
  {
    if meta.tags.Some? then meta.tags.value else []
  }

  /** The record of one post: slug from the file name, title defaulting to
      the slug, date to `""`, tags to none. */
  function Record(name: string, meta: Meta, readingTime: nat): (p: Post)
    ensures p.slug == Slug(name) && p.readingTime == readingTime
    ensures p.title != "" || Slug(name) == ""
    ensures p.title == FieldOr(meta, "title", Slug(name))
    ensures p.date == FieldOr(meta, "date", "") && p.tags == TagsOr(meta)
  {
    Post(Slug(name), FieldOr(meta, "title", Slug(name)), FieldOr(meta, "date", ""),
         TagsOr(meta), readingTime)
  }

  /** The comparator of the post sort: `a` goes before `b` when `a` is dated
      and `b` is undated or older (`b.date.localeCompare(a.date) < 0`). */
  predicate PostLess(a: Post, b: Post) {
    a.date != "" && (b.date == "" || StrLess(b.date, a.date))
  }

  lemma PostLessOrder()
    ensures StrictWeakOrder(PostLess)
  {
    forall x ensures !PostLess(x, x) {
      StrLessIrreflexive(x.date);
    }
    forall x, y, z | PostLess(x, y) && PostLess(y, z) ensures PostLess(x, z) {
      StrLessTransitive(z.date, y.date, x.date);
    }
    forall x, y, z | !PostLess(x, y) && !PostLess(y, z) ensures !PostLess(x, z) {
      if x.date != "" && y.date != "" && z.date != "" {
        StrLessOrder();
        assert !StrLess(y.date, x.date) && !StrLess(z.date, y.date);
      }
    }
  }

  /** The posts as listed: the records in the date order, a stable sort. */
  function ByDate(records: seq<Post>): seq<Post> {
    Sort(records, PostLess)
  }

  /** The listed order holds all records, dated ones first and newest first,
      and records the comparator cannot tell apart keep their relative order
      (for undated posts, file name order). */
  lemma ByDateOrder(records: seq<Post>)
    ensures multiset(ByDate(records)) == multiset(records)
    ensures forall i, j :: 0 <= i < j < |ByDate(records)| && ByDate(records)[j].date != "" ==>
      ByDate(records)[i].date != "" && !StrLess(ByDate(records)[i].date, ByDate(records)[j].date)
    ensures forall e :: Equivs(ByDate(records), e, PostLess) == Equivs(records, e, PostLess)
  {
    SortPermutes(records, PostLess);
    PostLessOrder();
    SortSorted(records, PostLess);
    forall e ensures Equivs(ByDate(records), e, PostLess) == Equivs(records, e, PostLess) {
      SortStable(records, e, PostLess);
    }
  }

  /** The texts read, in name order, up to the first name that cannot be
      read (where `readFile` throws and the loop stops); a name missing from
      `files` is a read that throws. */
  function Reads(names: seq<string>, files: map<string, string>): (raws: seq<string>)
    ensures |raws| <= |names|
  {
    if names == [] then []
    else
      var raws := Reads(names[..|names| - 1], files);
      var name := names[|names| - 1];
      if |raws| < |names| - 1 || name !in files then raws else raws + [files[name]]
  }

  /** `f` applied to each text read and the name it was read from. */
  function Zip<T>(names: seq<string>, raws: seq<string>, f: (string, string) -> T): (w: seq<T>)
    requires |raws| <= |names|
    ensures |w| == |raws|
    ensures forall i :: 0 <= i < |raws| ==> w[i] == f(names[i], raws[i])
  {
    seq(|raws|, i requires 0 <= i < |raws| => f(names[i], raws[i]))
  }

  lemma ZipNext<T>(names: seq<string>, raws: seq<string>, raw: string, f: (string, string) -> T)
    requires |raws| < |names|
    ensures Zip(names, raws + [raw], f) == Zip(names, raws, f) + [f(names[|raws|], raw)]
  {
  }

  /** One more successful read adds one element to anything zipped with
      what was read. */
  lemma ZipReadsNext<T>(names: seq<string>, k: nat, files: map<string, string>,
                        f: (string, string) -> T)
    requires k < |names| && |Reads(names[..k], files)| == k && names[k] in files
    ensures |Reads(names[..k + 1], files)| == k + 1
    ensures Zip(names, Reads(names[..k + 1], files), f)
         == Zip(names, Reads(names[..k], files), f) + [f(names[k], files[names[k]])]
  {
    ReadsNext(names, k, files);
    ZipNext(names, Reads(names[..k], files), files[names[k]], f);
  }

  /** Every name is read, in order, exactly when every name can be read. */
  lemma {:induction false} ReadsAll(names: seq<string>, files: map<string, string>)
    ensures |Reads(names, files)| == |names| <==> forall i :: 0 <= i < |names| ==> names[i] in files
    ensures forall i :: 0 <= i < |Reads(names, files)| ==>
      names[i] in files && Reads(names, files)[i] == files[names[i]]
  {
    if names != [] {
      var init := names[..|names| - 1];
      ReadsAll(init, files);
      assert forall i :: 0 <= i < |init| ==> init[i] == names[i];
    }
  }

  /** A read that throws stops the loop: what was read before it is all
      that is read. */
  lemma {:induction false} ReadsStop(names: seq<string>, k: nat, files: map<string, string>)
    requires k < |names| && |Reads(names[..k], files)| == k && names[k] !in files
    ensures Reads(names, files) == Reads(names[..k], files)
    decreases |names| - k
  {
    assert names[..k + 1][..k] == names[..k];
    ReadsShort(names, k + 1, files);
  }

  lemma {:induction false} ReadsShort(names: seq<string>, k: nat, files: map<string, string>)
    requires k <= |names| && |Reads(names[..k], files)| < k
    ensures Reads(names, files) == Reads(names[..k], files)
    decreases |names| - k
  {
    if k < |names| {
      assert names[..k + 1][..k] == names[..k];
      ReadsShort(names, k + 1, files);
    } else {
      assert names[..k] == names;
    }
  }

  lemma ReadsNext(names: seq<string>, k: nat, files: map<string, string>)
    requires k < |names| && |Reads(names[..k], files)| == k && names[k] in files
    ensures Reads(names[..k + 1], files) == Reads(names[..k], files) + [files[names[k]]]
  {
    assert names[..k + 1][..k] == names[..k];
  }

}

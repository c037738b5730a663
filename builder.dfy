/** `build` of scripts/build.mjs: read the Markdown posts in name order, write
    one page per post and then the index page listing the posts newest
    first. The file system is a listing (absent when `readdir` throws) and a
    map from file name to text (a missing name is a read that throws); the
    Markdown processor is the function `render`. */
module Builder {
  import opened Text
  import opened Sorting
  import opened Frontmatter
  import opened Heading
  import opened ReadingTime
  import opened Templates
  import opened Posts

  /** A page the build writes, named by the template and its arguments:
      `renderPostPage({ title, date, tags, readingTime, contentHtml })` or
      `renderIndexPage(posts)`. */
  datatype Page =
    | PostPageFor(title: string, date: string, tags: seq<string>, readingTime: nat,
                  contentHtml: string)
    | IndexPageFor(posts: seq<Post>)

  /** The text of a page. */
  function Html(page: Page): string {
    match page
    case PostPageFor(title, date, tags, readingTime, contentHtml) =>
      PostPage(title, date, tags, readingTime, contentHtml)
    case IndexPageFor(posts) => IndexPage(posts)
  }

  /** The files written, in order, as (root-relative path, page), and the
      returned posts; `None` when the build threw. */
  datatype Outcome = Outcome(writes: seq<(string, Page)>, posts: Option<seq<Post>>)

  /** `path.join(postsDir, `${slug}.html`)`, relative to the site root. */
  function PagePath(slug: string): string {
    "posts/" + slug + ".html"
  }

  const IndexPath := "index.html"

  /** The body a post is rendered from: its Markdown without the header and
      the leading heading. */
  function Cleaned(raw: string): string {
    StripH1(FrontmatterOf(raw).1)
  }

  /** The record of a post; its reading time is taken on the cleaned body. */
  function PostOf(name: string, raw: string): Post {
    Record(name, FrontmatterOf(raw).0, EstimateReadingTime(Cleaned(raw)))
  }

  /** The page written for a post: its record's fields and the rendered
      cleaned body. */
  function PageOf(name: string, raw: string, render: string -> string): Page {
    var p := PostOf(name, raw);
    PostPageFor(p.title, p.date, p.tags, p.readingTime, render(Cleaned(raw)))
  }

  /** The page writes for the texts read, one per text, in order. */
  function PageWrites(names: seq<string>, raws: seq<string>, render: string -> string)
    : (w: seq<(string, Page)>)
    requires |raws| <= |names|
    ensures |w| == |raws|
    ensures forall i :: 0 <= i < |raws| ==>
      w[i] == (PagePath(Slug(names[i])), PageOf(names[i], raws[i], render))
  {
    Zip(names, raws, (name, raw) => (PagePath(Slug(name)), PageOf(name, raw, render)))
  }

  /** The records pushed for the texts read, one per text, in order. */
  function Records(names: seq<string>, raws: seq<string>): (ps: seq<Post>)
    requires |raws| <= |names|
    ensures |ps| == |raws|
    ensures forall i :: 0 <= i < |raws| ==> ps[i] == PostOf(names[i], raws[i])
  {
    Zip(names, raws, PostOf)
  }

  /** The whole build. */
  function BuildOf(listing: Option<seq<DirEntry>>, files: map<string, string>,
                   render: string -> string): Outcome
  {
    match listing
    case None => Outcome([], None)
    case Some(entries) =>
      var names := MdNames(entries);
      if names == [] then Outcome([], Some([]))
      else
        var raws := Reads(names, files);
        var writes := PageWrites(names, raws, render);
        if |raws| < |names| then Outcome(writes, None)
        else
          var posts := ByDate(Records(names, raws));
          Outcome(writes + [(IndexPath, IndexPageFor(posts))], Some(posts))
  }

  /** The loop of `build`, pushing records and writing pages, then the sort
      and the index page. */
  method Build(listing: Option<seq<DirEntry>>, files: map<string, string>,
               render: string -> string) returns (out: Outcome)
    ensures out == BuildOf(listing, files, render)
  {
    if listing.None? {
      return Outcome([], None);
    }
    var names := MdNames(listing.value);
    if |names| == 0 {
      return Outcome([], Some([]));
    }
    var writes: seq<(string, Page)> := [];
    var allPosts: seq<Post> := [];
    var i := 0;
    while i < |names|
      invariant 0 <= i <= |names|
      invariant |Reads(names[..i], files)| == i
      invariant writes == PageWrites(names, Reads(names[..i], files), render)
      invariant allPosts == Records(names, Reads(names[..i], files))
    {
      var fileName := names[i];
      if fileName !in files {
        ReadsStop(names, i, files);
        return Outcome(writes, None);
      }
      var raw := files[fileName];
      var write, post := BuildPost(fileName, raw, render);
      BuildNext(names, i, files, render);
      writes := writes + [write];
      allPosts := allPosts + [post];
      i := i + 1;
    }
    assert names[..|names|] == names;
    var sorted := ByDate(allPosts);
    out := Outcome(writes + [(IndexPath, IndexPageFor(sorted))], Some(sorted));
  }

  /** The body of the loop for one file: parse it, strip its heading,
      render its page and build its record. */
  method BuildPost(fileName: string, raw: string, render: string -> string)
    returns (write: (string, Page), post: Post)
    ensures write == (PagePath(Slug(fileName)), PageOf(fileName, raw, render))
    ensures post == PostOf(fileName, raw)
  {
    var slug := Slug(fileName);
    var outPath := PagePath(slug);
    var meta, body := ParseFrontmatter(raw);
    var cleaned := StripLeadingH1(body);
    var contentHtml := render(cleaned);
    var title := FieldOr(meta, "title", slug);
    var date := FieldOr(meta, "date", "");
    var tags := TagsOr(meta);
    var readingTime := EstimateReadingTime(cleaned);
    PushedPost(fileName, raw, render, outPath, title, date, tags, readingTime, contentHtml);
    write := (outPath, PostPageFor(title, date, tags, readingTime, contentHtml));
    post := Post(slug, title, date, tags, readingTime);
  }

  /** One more successful read adds its page to the writes and its record
      to the records. */
  lemma BuildNext(names: seq<string>, k: nat, files: map<string, string>,
                  render: string -> string)
    requires k < |names| && |Reads(names[..k], files)| == k && names[k] in files
    ensures |Reads(names[..k + 1], files)| == k + 1
    ensures PageWrites(names, Reads(names[..k + 1], files), render)
      == PageWrites(names, Reads(names[..k], files), render)
         + [(PagePath(Slug(names[k])), PageOf(names[k], files[names[k]], render))]
    ensures Records(names, Reads(names[..k + 1], files))
      == Records(names, Reads(names[..k], files)) + [PostOf(names[k], files[names[k]])]
  {
    ZipReadsNext(names, k, files,
                 (name, raw) => (PagePath(Slug(name)), PageOf(name, raw, render)));
    ZipReadsNext(names, k, files, PostOf);
  }

  /** The values the loop body computes for one file are its page and its
      record. */
  lemma PushedPost(name: string, raw: string, render: string -> string, outPath: string,
                   title: string, date: string, tags: seq<string>, readingTime: nat,
                   contentHtml: string)
    requires outPath == PagePath(Slug(name))
    requires title == FieldOr(FrontmatterOf(raw).0, "title", Slug(name))
    requires date == FieldOr(FrontmatterOf(raw).0, "date", "")
    requires tags == TagsOr(FrontmatterOf(raw).0)
    requires readingTime == EstimateReadingTime(Cleaned(raw))
    requires contentHtml == render(Cleaned(raw))
    ensures (outPath, PostPageFor(title, date, tags, readingTime, contentHtml))
      == (PagePath(Slug(name)), PageOf(name, raw, render))
    ensures Post(Slug(name), title, date, tags, readingTime) == PostOf(name, raw)
  {
  }

  /** A missing `posts/` directory makes the build throw before writing. */
  lemma NoDirectory(files: map<string, string>, render: string -> string)
    ensures BuildOf(None, files, render) == Outcome([], None)
  {
  }

  /** With no Markdown file the build returns no posts and writes nothing,
      not even the index page. */
  lemma NothingToBuild(entries: seq<DirEntry>, files: map<string, string>, render: string -> string)
    requires forall i :: 0 <= i < |entries| ==> !IsMarkdown(entries[i])
    ensures BuildOf(Some(entries), files, render) == Outcome([], Some([]))
  {
    NoMarkdown(entries);
  }

  /** When a post cannot be read the build throws; the pages of the posts
      before it in name order have been written, and no index page. */
  lemma ReadFailure(entries: seq<DirEntry>, files: map<string, string>, render: string -> string,
                    k: nat)
    requires k < |MdNames(entries)| && MdNames(entries)[k] !in files
    requires forall i :: 0 <= i < k ==> MdNames(entries)[i] in files
    ensures var names := MdNames(entries);
      var out := BuildOf(Some(entries), files, render);
      && out.posts.None?
      && |out.writes| == k
      && forall i :: 0 <= i < k ==>
           out.writes[i] == (PagePath(Slug(names[i])), PageOf(names[i], files[names[i]], render))
  {
    var names := MdNames(entries);
    ReadsAll(names[..k], files);
    assert forall i :: 0 <= i < k ==> names[..k][i] == names[i];
    ReadsStop(names, k, files);
    ReadsAll(names, files);
  }

  /** When every post can be read, one page is written per Markdown file, in
      name order, at the path of its slug, and then the index page, which
      lists the returned posts; the returned posts are the records in date
      order. */
  lemma BuildWrites(entries: seq<DirEntry>, files: map<string, string>, render: string -> string)
    requires forall e :: e in entries && IsMarkdown(e) ==> e.name in files
    requires exists e :: e in entries && IsMarkdown(e)
    ensures var names := MdNames(entries);
      var out := BuildOf(Some(entries), files, render);
      && out.posts.Some?
      && |out.writes| == |names| + 1
      && (forall i :: 0 <= i < |names| ==>
            names[i] in files
            && out.writes[i] == (PagePath(Slug(names[i])), PageOf(names[i], files[names[i]], render)))
      && out.writes[|names|] == (IndexPath, IndexPageFor(out.posts.value))
      && out.posts.value == ByDate(Records(names, Reads(names, files)))
  {
    var names := MdNames(entries);
    MdNamesOrder(entries);
    var e :| e in entries && IsMarkdown(e);
    assert e.name in names;
    forall i | 0 <= i < |names| ensures names[i] in files {
      assert names[i] in names;
    }
    ReadsAll(names, files);
    var raws := Reads(names, files);
    var writes := PageWrites(names, raws, render);
    var posts := ByDate(Records(names, raws));
    assert names != [];
    assert BuildOf(Some(entries), files, render)
        == Outcome(writes + [(IndexPath, IndexPageFor(posts))], Some(posts));
  }

  /** The returned posts are the records of all Markdown files, one each,
      dated posts first and newest first; posts the order cannot tell apart
      keep their name order. */
  lemma BuildOrder(entries: seq<DirEntry>, files: map<string, string>, render: string -> string)
    requires forall e :: e in entries && IsMarkdown(e) ==> e.name in files
    ensures var names := MdNames(entries);
      var out := BuildOf(Some(entries), files, render);
      var records := Records(names, Reads(names, files));
      && |records| == |names|
      && (forall i :: 0 <= i < |names| ==>
            names[i] in files && records[i] == PostOf(names[i], files[names[i]]))
      && out.posts.Some?
      && multiset(out.posts.value) == multiset(records)
      && (forall i, j :: 0 <= i < j < |out.posts.value| && out.posts.value[j].date != "" ==>
            out.posts.value[i].date != ""
            && !StrLess(out.posts.value[i].date, out.posts.value[j].date))
      && (forall e :: Equivs(out.posts.value, e, PostLess) == Equivs(records, e, PostLess))
  {
    var names := MdNames(entries);
    MdNamesOrder(entries);
    forall i | 0 <= i < |names| ensures names[i] in files {
      assert names[i] in names;
    }
    ReadsAll(names, files);
    ByDateOrder(Records(names, Reads(names, files)));
  }

  /** A post's title defaults to its slug, its date to `""` and its tags to
      none; its reading time is estimated from the cleaned body, the text
      the page is rendered from. */
  lemma PostDefaults(name: string, raw: string)
    requires var meta := FrontmatterOf(raw).0;
      "title" !in meta.fields && "date" !in meta.fields && meta.tags.None?
    ensures PostOf(name, raw) == Post(Slug(name), Slug(name), "", [],
                                      EstimateReadingTime(Cleaned(raw)))
  {
  }
}

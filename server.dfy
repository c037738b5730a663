/** The request handler of `startServer` in scripts/serve.mjs, over a file
    tree given as a map from root-relative paths to entries: the status
    decision (404, 403, 200, 500) and the content type of a served file. */
module Server {
  import opened Text
  import opened Uri
  import opened SafePath
  import Html
  import Templates

  /** What `fs.stat` finds. `None` data is a file that cannot be read. */
  datatype Node = File(data: Option<string>) | Dir

  datatype Response = Response(status: nat, contentType: string, body: string)

  const PlainText := "text/plain; charset=utf-8"
  const HtmlType := "text/html; charset=utf-8"
  const OctetStream := "application/octet-stream"

  /** The `mime` map: extension to content type. */
  const MimeTable: seq<(string, string)> := [
    (".html", HtmlType),
    (".css", "text/css; charset=utf-8"),
    (".js", "text/javascript; charset=utf-8"),
    (".json", "application/json; charset=utf-8"),
    (".md", "text/markdown; charset=utf-8"),
    (".svg", "image/svg+xml"),
    (".png", "image/png"),
    (".jpg", "image/jpeg"),
    (".jpeg", "image/jpeg"),
    (".gif", "image/gif"),
    (".webp", "image/webp"),
    (".woff2", "font/woff2"),
    (".woff", "font/woff"),
    (".ttf", "font/ttf"),
    (".otf", "font/otf")
  ]

  /** `table.get(key)`: the value of the first entry with that key. */
  function Lookup(table: seq<(string, string)>, key: string): (r: Option<string>)
    ensures r.Some? ==> exists i :: 0 <= i < |table| && table[i] == (key, r.value)
    ensures r.None? <==> forall i :: 0 <= i < |table| ==> table[i].0 != key
  {
    if table == [] then None
    else if table[0].0 == key then
      assert table[0] == (key, table[0].1);
      Some(table[0].1)
    else
      var r := Lookup(table[1..], key);
      if r.Some? then
        var i :| 0 <= i < |table[1..]| && table[1..][i] == (key, r.value);
        assert table[i + 1] == (key, r.value);
        r
      else
        assert forall i :: 1 <= i < |table| ==> table[i] == table[1..][i - 1];
        r
  }

  /** `mime.get(ext) || "application/octet-stream"`: the table's type for a
      listed extension, the generic binary type for any other. */
  function MimeOf(ext: string): (r: string)
    ensures (exists i :: 0 <= i < |MimeTable| && MimeTable[i] == (ext, r))
      || (r == OctetStream && forall i :: 0 <= i < |MimeTable| ==> MimeTable[i].0 != ext)
  {
    match Lookup(MimeTable, ext)
    case Some(t) => t
    case None => OctetStream
  }

  /** The position of the last `c` in `s`. */
  function LastIndex(s: string, c: char): (k: nat)
    requires c in s
    ensures k < |s| && s[k] == c && c !in s[k + 1..]
  {
    if s[|s| - 1] == c then |s| - 1
    else
      assert c in s[..|s| - 1] by {
        var j :| 0 <= j < |s| && s[j] == c;
        assert s[..|s| - 1][j] == c;
      }
      var k := LastIndex(s[..|s| - 1], c);
      assert s[k + 1..] == s[..|s| - 1][k + 1..] + [s[|s| - 1]];
      k
  }

  /** `path.extname` of a file name: from its last `.` on, except that a
      name whose only `.` is its first character, and the name `..`, have
      none. */
  function Extname(b: string): (e: string)
    ensures e == "" || (e[0] == '.' && EndsWith(b, e) && '.' !in e[1..])
  {
    if '.' !in b then ""
    else
      var k := LastIndex(b, '.');
      if k == 0 || b == ".." then "" else
        assert b[k..][1..] == b[k + 1..];
        b[k..]
  }

  /** The last `/`-separated piece of a path. */
  function Basename(p: string): string {
    var parts := Split(p, '/');
    parts[|parts| - 1]
  }

  /** `mime.get(path.extname(abs).toLowerCase())`, defaulted. */
  function ContentType(p: string): string {
    MimeOf(LowerAsciiString(Extname(Basename(p))))
  }

  /** Where `path.join(rootDir, rel)` points inside the root: the resolved
      segments of `rel`, `""` being the root itself. */
  function Key(rel: string): string {
    Join(Resolve(Split(rel, '/'), true), "/")
  }

  const IndexName := "index.html"

  /** `path.join(abs, "index.html")` for a directory key. */
  function IndexKey(key: string): string {
    if key == "" then IndexName else key + "/" + IndexName
  }

  const NotFound := Response(404, PlainText, "404 Not Found")
  const Forbidden := Response(403, PlainText, "403 Forbidden")
  const ServerError := Response(500, PlainText, "500 Server Error")

  /** A readable entry is served with the given type; an unreadable one is
      the thrown read error. */
  function Serve(data: Option<string>, contentType: string): Response {
    match data
    case None => ServerError
    case Some(b) => Response(200, contentType, b)
  }

  /** A path ending in `/` names a directory: `fs.stat` of a file under such
      a path fails (`ENOTDIR`), while a directory is found as usual. */
  predicate DirSyntax(rel: string) {
    rel != "" && rel[|rel| - 1] == '/'
  }

  /** The response to a request for `reqUrl`: a malformed escape is a 500, a
      missing path (or a file asked for with a trailing `/`) a 404, a
      directory is served through its `index.html` or refused with 403, and
      a file is served with the type of its extension. */
  function Respond(reqUrl: string, fs: map<string, Node>): (r: Response)
    ensures r.status == 200 || r == NotFound || r == Forbidden || r == ServerError
  {
    var urlPath := if reqUrl == "" then "/" else reqUrl;
    match SafePathFromUrl(urlPath)
    case None => ServerError
    case Some(rel) => Answer(rel, fs)
  }

  /** The response once the request has decoded to the sanitised path `rel`. */
  function Answer(rel: string, fs: map<string, Node>): (r: Response)
    ensures r.status == 200 || r == NotFound || r == Forbidden || r == ServerError
  {
    var key := Key(rel);
    if key !in fs then NotFound
    else match fs[key]
      case Dir =>
        var ik := IndexKey(key);
        if ik !in fs || !fs[ik].File? then Forbidden
        else Serve(fs[ik].data, HtmlType)
      case File(data) =>
        if DirSyntax(rel) then NotFound else Serve(data, ContentType(key))
  }

  /** The sanitised path a request names, when it decodes. */
  function Target(reqUrl: string): Option<string> {
    SafePathFromUrl(if reqUrl == "" then "/" else reqUrl)
  }

  /** The status is decided by what the target is: 500 for a path that does
      not decode, 404 for a missing one or a file named with a trailing `/`,
      403 for a directory without an `index.html` file, 200 for a readable
      file or index. */
  lemma RespondDecision(reqUrl: string, fs: map<string, Node>)
    ensures Target(reqUrl).None? ==> Respond(reqUrl, fs) == ServerError
    ensures Target(reqUrl).Some? ==> var rel := Target(reqUrl).value; var key := Key(rel);
      && (Respond(reqUrl, fs) == NotFound <==> key !in fs || (fs[key].File? && DirSyntax(rel)))
      && (Respond(reqUrl, fs) == Forbidden <==>
            key in fs && fs[key].Dir? && (IndexKey(key) !in fs || !fs[IndexKey(key)].File?))
      && (key in fs && fs[key].File? && !DirSyntax(rel) && fs[key].data.Some? ==>
            Respond(reqUrl, fs) == Response(200, ContentType(key), fs[key].data.value))
      && (key in fs && fs[key].Dir? && IndexKey(key) in fs && fs[IndexKey(key)].File?
          && fs[IndexKey(key)].data.Some? ==>
            Respond(reqUrl, fs) == Response(200, HtmlType, fs[IndexKey(key)].data.value))
  {
  }

  /** A file at the root asked for with a trailing `/` is not found, though
      it exists. */
  lemma FileWithSlashNotFound(name: string, fs: map<string, Node>)
    requires PlainSegment(name) && '%' !in name
    requires name in fs && fs[name].File?
    ensures Respond("/" + name + "/", fs) == NotFound
  {
    var url := "/" + name + "/";
    assert forall c :: c in url ==> c == '/' || c in name;
    DecodePlain(url);
    SanitizeTrailing(name);
    KeyTrailing(name);
    assert (name + "/")[|name|] == '/';
  }

  /** The lookup key drops the trailing `/`. */
  lemma KeyTrailing(name: string)
    requires PlainSegment(name)
    ensures Key(name + "/") == name
  {
    SplitNameSlash(name);
    ResolveTrailing(name, true);
  }

  /** A request with a `%` not followed by two hexadecimal digits is a 500. */
  lemma MalformedIsError(p: string, t: string, fs: map<string, Node>)
    requires '%' !in p
    requires |t| < 2 || HexValue(t[0]).None? || HexValue(t[1]).None?
    ensures Respond(p + "%" + t, fs) == ServerError
  {
    BadEscape(p, t);
    assert p + "%" + t != "";
  }

  /** The resolved segments of a confined path: none empty, none `..`, none
      holding a separator. */
  lemma ConfinedStack(rel: string, st: seq<string>)
    requires Confined(rel)
    requires st == Resolve(Split(rel, '/'), true)
    ensures forall i :: 0 <= i < |st| ==>
      st[i] != "" && '/' !in st[i] && '\\' !in st[i] && st[i] != ".."
  {
    var segs := Split(rel, '/');
    ResolveOk(segs, true);
    SplitAvoids(rel, '/', '\\');
    forall i | 0 <= i < |st|
      ensures st[i] != "" && '/' !in st[i] && '\\' !in st[i] && st[i] != ".."
    {
      assert st[i] in segs;
    }
  }

  lemma StackKeyConfined(st: seq<string>)
    requires forall i :: 0 <= i < |st| ==>
      st[i] != "" && '/' !in st[i] && '\\' !in st[i] && st[i] != ".."
    ensures Confined(Join(st, "/"))
  {
    if st == [] {
      assert Join(st, "/") == "";
      assert Split("", '/') == [""];
    } else {
      JoinConfined(st);
    }
  }

  /** One more plain segment keeps a joined path confined. */
  lemma StackAppendConfined(st: seq<string>, name: string)
    requires forall i :: 0 <= i < |st| ==>
      st[i] != "" && '/' !in st[i] && '\\' !in st[i] && st[i] != ".."
    requires name != "" && '/' !in name && '\\' !in name && name != ".."
    ensures Confined(Join(st + [name], "/"))
  {
    var t := st + [name];
    forall i | 0 <= i < |t|
      ensures t[i] != "" && '/' !in t[i] && '\\' !in t[i] && t[i] != ".."
    {
      if i < |st| {
        assert t[i] == st[i];
      }
    }
    StackKeyConfined(t);
  }

  lemma IndexAppend(st: seq<string>, key: string, name: string, ik: string)
    requires forall i :: 0 <= i < |st| ==>
      st[i] != "" && '/' !in st[i] && '\\' !in st[i] && st[i] != ".."
    requires name != "" && '/' !in name && '\\' !in name && name != ".."
    requires st != [] && key == Join(st, "/") && ik == key + "/" + name
    ensures Confined(ik)
  {
    StackAppendConfined(st, name);
    JoinAppend(st, name, "/");
  }

  lemma StackIndexConfined(st: seq<string>, key: string)
    requires forall i :: 0 <= i < |st| ==>
      st[i] != "" && '/' !in st[i] && '\\' !in st[i] && st[i] != ".."
    requires key == Join(st, "/")
    ensures Confined(IndexKey(key))
  {
    if st == [] {
      RootIndexConfined(key);
    } else {
      JoinFirstChar(st, "/");
      DirIndexConfined(st, key);
    }
  }

  lemma RootIndexConfined(key: string)
    requires key == ""
    ensures Confined(IndexKey(key))
  {
    IndexConfined();
  }

  lemma DirIndexConfined(st: seq<string>, key: string)
    requires forall i :: 0 <= i < |st| ==>
      st[i] != "" && '/' !in st[i] && '\\' !in st[i] && st[i] != ".."
    requires st != [] && key == Join(st, "/") && key != ""
    ensures Confined(IndexKey(key))
  {
    IndexNamePlain();
    IndexAppend(st, key, IndexName, IndexKey(key));
  }

  lemma IndexNamePlain()
    ensures IndexName != "" && '/' !in IndexName && '\\' !in IndexName && IndexName != ".."
  {
  }

  /** The keys the handler looks up for a confined path are confined too. */
  lemma KeyConfined(rel: string)
    requires Confined(rel)
    ensures Confined(Key(rel)) && Confined(IndexKey(Key(rel)))
  {
    var st := Resolve(Split(rel, '/'), true);
    ConfinedStack(rel, st);
    StackKeyConfined(st);
    StackIndexConfined(st, Key(rel));
  }

  /** Two file trees that agree on every confined path get the same answers:
      no request reads anything outside the served directory. */
  lemma RespondStaysInside(reqUrl: string, fs1: map<string, Node>, fs2: map<string, Node>)
    requires forall k :: Confined(k) ==> (k in fs1 <==> k in fs2)
    requires forall k :: Confined(k) && k in fs1 ==> fs1[k] == fs2[k]
    ensures Respond(reqUrl, fs1) == Respond(reqUrl, fs2)
  {
    var urlPath := if reqUrl == "" then "/" else reqUrl;
    SafePathConfined(urlPath);
    if SafePathFromUrl(urlPath).Some? {
      var rel := SafePathFromUrl(urlPath).value;
      KeyConfined(rel);
      AnswerStaysInside(rel, fs1, fs2);
    }
  }

  lemma AnswerStaysInside(rel: string, fs1: map<string, Node>, fs2: map<string, Node>)
    requires Confined(Key(rel)) && Confined(IndexKey(Key(rel)))
    requires forall k :: Confined(k) ==> (k in fs1 <==> k in fs2)
    requires forall k :: Confined(k) && k in fs1 ==> fs1[k] == fs2[k]
    ensures Answer(rel, fs1) == Answer(rel, fs2)
  {
    var key := Key(rel);
    assert key in fs1 <==> key in fs2;
    assert IndexKey(key) in fs1 <==> IndexKey(key) in fs2;
    if key in fs1 {
      assert fs1[key] == fs2[key];
    }
    if IndexKey(key) in fs1 {
      assert fs1[IndexKey(key)] == fs2[IndexKey(key)];
    }
  }

  /** The two segments of a post page's path. */
  lemma PostSegments(slug: string, f: string)
    requires slug != "" && '/' !in slug && '\\' !in slug && '?' !in slug && '#' !in slug
    requires f == slug + ".html"
    ensures PlainSegment("posts") && PlainSegment(f)
  {
    assert f[|slug|] == '.';
    assert '/' !in ".html" && '\\' !in ".html" && '?' !in ".html" && '#' !in ".html";
    assert forall c :: c in f ==> c in slug || c in ".html";
  }

  /** A `.` followed by a non-empty, dot-free tail after a non-empty stem is
      the file's extension. */
  lemma ExtnameOf(stem: string, x: string, b: string)
    requires stem != "" && x != "" && '.' !in x
    requires b == stem + "." + x
    ensures Extname(b) == "." + x
  {
    assert b[|stem|] == '.';
    var k := LastIndex(b, '.');
    assert k == |stem|;
    assert b[k..] == "." + x;
  }

  lemma BasenameOf(dir: string, f: string, p: string)
    requires '/' !in dir && '/' !in f
    requires p == dir + "/" + f
    ensures Basename(p) == f
  {
    SplitFirst(dir, '/', f);
    assert Split(f, '/') == [f];
  }

  lemma HtmlMime()
    ensures MimeOf(".html") == HtmlType
  {
    assert MimeTable[0] == (".html", HtmlType);
  }

  /** The pieces of the literal paths a post page is written under. */
  lemma PageLiterals()
    ensures "posts/" == "posts" + "/"
    ensures ".html" == "." + "html"
    ensures "/posts/" == "/" + "posts/"
    ensures '/' !in ".html" && '.' !in "html"
  {
  }

  lemma LowerHtml()
    ensures LowerAsciiString(".html") == ".html"
  {
  }

  /** A page file name is served as HTML. */
  lemma HtmlName(slug: string, p: string)
    requires slug != "" && '/' !in slug
    requires p == "posts/" + slug + ".html"
    ensures ContentType(p) == HtmlType
  {
    PageLiterals();
    var f := slug + ".html";
    assert p == "posts" + "/" + f;
    assert '/' !in f by {
      assert forall c :: c in f ==> c in slug || c in ".html";
    }
    BasenameOf("posts", f, p);
    assert f == slug + "." + "html";
    ExtnameOf(slug, "html", f);
    LowerHtml();
    HtmlMime();
  }

  /** Plain text around an encoded part decodes to the part's original. */
  lemma DecodeAround(pre: string, s: string, post: string)
    requires '%' !in pre && '%' !in post
    ensures Decode(pre + Encode(s) + post) == Some(pre + s + post)
  {
    var e := Encode(s);
    var tail := e + post;
    assert pre + e + post == pre + tail;
    DecodePlain(post);
    DecodeEncodeThen(s, post);
    assert Decode(tail) == Some(s + post);
    DecodePlainThen(pre, tail);
    assert pre + (s + post) == pre + s + post;
  }

  lemma DecodeNested(a: string, b: string, s: string, post: string)
    requires '%' !in a && '%' !in b && '%' !in post
    ensures Decode(a + (b + Encode(s) + post)) == Some(a + (b + s + post))
  {
    var pre := a + b;
    var e := Encode(s);
    assert a + (b + e + post) == pre + e + post;
    assert a + (b + s + post) == pre + s + post;
    assert '%' !in pre;
    DecodeAround(pre, s, post);
  }

  /** The link of a post decodes to the page's absolute path. */
  lemma PostLinkDecodes(slug: string, url: string, rel: string)
    requires url == "/" + Templates.Href(slug)
    requires rel == "posts/" + slug + ".html"
    ensures Decode(url) == Some("/" + rel)
  {
    assert '%' !in "/" && '%' !in "posts/" && '%' !in ".html";
    DecodeNested("/", "posts/", slug, ".html");
  }

  lemma PostPathSafe(slug: string, rel: string)
    requires slug != "" && '/' !in slug && '\\' !in slug && '?' !in slug && '#' !in slug
    requires rel == "posts/" + slug + ".html"
    ensures Sanitize("/" + rel) == rel
    ensures Key(rel) == rel
  {
    PageLiterals();
    var f := slug + ".html";
    var segs := ["posts", f];
    PostSegments(slug, f);
    JoinCons("posts", [f], "/");
    assert Join(segs, "/") == rel;
    SanitizePlain(segs);
    SplitJoin(segs, '/');
    ResolvePlain(segs, true);
  }

  lemma PostLinkSafe(slug: string, url: string, rel: string)
    requires slug != "" && '/' !in slug && '\\' !in slug && '?' !in slug && '#' !in slug
    requires url == "/" + Templates.Href(slug)
    requires rel == "posts/" + slug + ".html"
    ensures SafePathFromUrl(url) == Some(rel)
  {
    PostLinkDecodes(slug, url, rel);
    PostPathSafe(slug, rel);
  }

  /** A request that resolves to a readable file is answered with it. */
  lemma RespondFile(url: string, rel: string, data: string, fs: map<string, Node>)
    requires url != "" && SafePathFromUrl(url) == Some(rel) && Key(rel) == rel && !DirSyntax(rel)
    requires rel in fs && fs[rel] == File(Some(data))
    ensures Respond(url, fs) == Response(200, ContentType(rel), data)
  {
  }

  /** The link the index page writes for a post, unescaped by the browser from
      its `href` attribute and requested from the site root, is served as the
      page that was written for that post. */
  lemma ServesPostLink(slug: string, html: string, fs: map<string, Node>)
    requires slug != "" && '/' !in slug && '\\' !in slug && '?' !in slug && '#' !in slug
    requires "posts/" + slug + ".html" in fs
    requires fs["posts/" + slug + ".html"] == File(Some(html))
    ensures Respond("/" + Html.Unescape(Html.EscapeHtml(Templates.Href(slug))), fs)
      == Response(200, HtmlType, html)
  {
    var href := Templates.Href(slug);
    assert Html.Unescape(Html.EscapeHtml(href)) == href;
    var url := "/" + href;
    var rel := "posts/" + slug + ".html";
    PostLinkSafe(slug, url, rel);
    PostPathSafe(slug, rel);
    assert rel[|rel| - 1] == 'l';
    RespondFile(url, rel, html, fs);
    HtmlName(slug, rel);
  }
}

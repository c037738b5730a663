/** `safePathFromUrl` of scripts/serve.mjs: a request path is percent-decoded,
    cut at `?` and `#`, its backslashes become slashes, it is normalised as
    `path.posix.normalize` does, leading `../` runs are dropped and one leading
    `/` is removed. */
module SafePath {
  import opened Text
  import opened Uri

  /** `s.replace(/\\/g, "/")`. */
  function Backslashes(s: string): (r: string)
    ensures |r| == |s| && '\\' !in r
    ensures forall i :: 0 <= i < |s| ==> r[i] == (if s[i] == '\\' then '/' else s[i])
  {
    if s == [] then "" else [if s[0] == '\\' then '/' else s[0]] + Backslashes(s[1..])
  }

  /** A character missing from a string is missing from every piece of it. */
  lemma {:induction false} SplitAvoids(s: string, sep: char, c: char)
    requires c !in s
    ensures forall i :: 0 <= i < |Split(s, sep)| ==> c !in Split(s, sep)[i]
    decreases |s|
  {
    if sep in s {
      var i := FirstIndex(s, sep);
      SplitAvoids(s[i + 1..], sep, c);
      assert c !in s[..i];
    }
  }

  /** A character in neither the parts nor the separator is not in their join. */
  lemma {:induction false} JoinAvoids(parts: seq<string>, sep: string, c: char)
    requires c !in sep
    requires forall i :: 0 <= i < |parts| ==> c !in parts[i]
    ensures c !in Join(parts, sep)
  {
    if |parts| > 1 {
      JoinAvoids(parts[1..], sep, c);
    }
  }

  /** The segments `path.posix.normalize` keeps: none empty, none `.`, and
      `..` only in a leading run (only where it may climb above the start). */
  predicate StackOk(st: seq<string>, above: bool) {
    && (forall i :: 0 <= i < |st| ==> st[i] != "" && st[i] != ".")
    && (forall i, j :: 0 <= i < j < |st| && st[j] == ".." ==> st[i] == "..")
    && (!above ==> forall i :: 0 <= i < |st| ==> st[i] != "..")
  }

  /** One segment of the normalisation: empty and `.` segments vanish, `..`
      removes the previous segment unless that is itself `..`, and is kept
      only for a relative path (`above`). */
  function Step(st: seq<string>, seg: string, above: bool): seq<string> {
    if seg == "" || seg == "." then st
    else if seg == ".." then
      if |st| > 0 && st[|st| - 1] != ".." then st[..|st| - 1]
      else if above then st + [".."]
      else st
    else st + [seg]
  }

  /** The segments left after resolving `segs` from left to right. */
  function Resolve(segs: seq<string>, above: bool): seq<string> {
    if segs == [] then [] else Step(Resolve(segs[..|segs| - 1], above), segs[|segs| - 1], above)
  }

  /** What resolving keeps: segments of the input only, in the shape
      `StackOk` describes. */
  lemma {:induction false} ResolveOk(segs: seq<string>, above: bool)
    ensures StackOk(Resolve(segs, above), above)
    ensures forall i :: 0 <= i < |Resolve(segs, above)| ==> Resolve(segs, above)[i] in segs
  {
    if segs != [] {
      var init := segs[..|segs| - 1];
      var prev := Resolve(init, above);
      var seg := segs[|segs| - 1];
      ResolveOk(init, above);
      assert forall i :: 0 <= i < |prev| ==> prev[i] in segs by {
        forall i | 0 <= i < |prev| ensures prev[i] in segs {
          assert prev[i] in init;
        }
      }
      if seg == ".." && |prev| > 0 && prev[|prev| - 1] == ".." {
        assert forall i :: 0 <= i < |prev| ==> prev[i] == "..";
      }
    }
  }

  /** `path.posix.normalize(p)`. */
  function NormalizePosix(p: string): (r: string)
    ensures r != ""
  {
    if p == "" then "."
    else
      var st := Resolve(Split(p, '/'), p[0] != '/');
      ResolveOk(Split(p, '/'), p[0] != '/');
      var trail := p[|p| - 1] == '/';
      if st == [] then (if p[0] == '/' then "/" else if trail then "./" else ".")
      else
        var body := Join(if trail then st + [""] else st, "/");
        if p[0] == '/' then "/" + body else body
  }

  /** `.replace(/^(\.\.(\/|\\|$))+/, "")`: the result is a suffix of the input
      that starts with neither `../` nor `..\` and is not `..`. */
  function StripUp(s: string): (r: string)
    ensures |r| <= |s| && r == s[|s| - |r|..]
    ensures !StartsWith(r, "../") && !StartsWith(r, "..\\") && r != ".."
  {
    if StartsWith(s, "../") || StartsWith(s, "..\\") then StripUp(s[3..])
    else if s == ".." then ""
    else s
  }

  /** `/` and `.` are the site root; otherwise one leading `/` goes. */
  function DropRoot(n: string): string {
    if n == "/" || n == "." then "index.html"
    else if n != "" && n[0] == '/' then n[1..]
    else n
  }

  /** A path that stays inside the served directory: relative, with no
      backslash and no `..` segment. */
  predicate Confined(r: string) {
    && (r == "" || r[0] != '/')
    && '\\' !in r
    && forall i :: 0 <= i < |Split(r, '/')| ==> Split(r, '/')[i] != ".."
  }

  /** `decoded.split("?")[0].split("#")[0]`. */
  function Cleaned(d: string): string {
    Split(Split(d, '?')[0], '#')[0]
  }

  /** Everything `safePathFromUrl` does after decoding. */
  function Sanitize(d: string): string {
    DropRoot(StripUp(NormalizePosix(Backslashes(Cleaned(d)))))
  }

  /** `safePathFromUrl(urlPath)`; `None` is the `URIError` of a malformed
      escape, which the request handler turns into a 500. */
  function SafePathFromUrl(url: string): (r: Option<string>)
    ensures r.None? <==> Decode(url).None?
  {
    match Decode(url)
    case None => None
    case Some(d) => Some(Sanitize(d))
  }

  /** Whatever the decoded path, the sanitised one stays inside the root. */
  lemma SanitizeConfined(d: string)
    ensures Confined(Sanitize(d))
  {
    NormalizedConfined(Backslashes(Cleaned(d)));
  }

  /** The path the server resolves never starts with `/`, holds no `\` and
      has no `..` segment. */
  lemma SafePathConfined(url: string)
    ensures SafePathFromUrl(url).Some? ==> Confined(SafePathFromUrl(url).value)
  {
    if Decode(url).Some? {
      SanitizeConfined(Decode(url).value);
    }
  }

  lemma IndexConfined()
    ensures Confined("index.html")
  {
    assert '/' !in "index.html";
    assert Split("index.html", '/') == ["index.html"];
  }

  /** A slash-joined list of segments without `/`, `\` and `..`, whose first
      segment is not empty (unless it is the only one), is confined. */
  lemma JoinConfined(t: seq<string>)
    requires t != []
    requires forall i :: 0 <= i < |t| ==> '/' !in t[i] && '\\' !in t[i] && t[i] != ".."
    requires t[0] != "" || |t| == 1
    ensures Confined(Join(t, "/"))
  {
    var x := Join(t, "/");
    JoinAvoids(t, "/", '\\');
    SplitJoin(t, '/');
    if |t| > 1 {
      assert x == t[0] + "/" + Join(t[1..], "/");
      assert x[0] == t[0][0];
    }
  }

  /** A string that begins with a segment other than `.` and `..`, ended by
      `/` or by the end of the string, does not begin with a parent step. */
  lemma NotUp(x: string, h: string)
    requires h != "" && h != "." && h != ".." && '/' !in h && '\\' !in h
    requires |h| <= |x| && x[..|h|] == h
    requires |x| == |h| || x[|h|] == '/'
    ensures !StartsWith(x, "../") && !StartsWith(x, "..\\") && x != ".."
  {
    assert h[0] == x[0];
    if |h| == 1 {
      if |x| >= 2 {
        assert x[1] == '/';
      }
    } else if |h| == 2 {
      assert x[..2] == h;
    } else {
      assert x[2] == h[2];
      assert h[2] in h;
    }
  }

  /** Such a string passes `StripUp` and `DropRoot` untouched. */
  lemma HeadKept(x: string, h: string)
    requires h != "" && h != "." && h != ".." && '/' !in h && '\\' !in h
    requires |h| <= |x| && x[..|h|] == h
    requires |x| == |h| || x[|h|] == '/'
    ensures StripUp(x) == x
    ensures DropRoot(x) == x
  {
    NotUp(x, h);
    DropRootKept(x, h);
  }

  lemma DropRootKept(x: string, h: string)
    requires h != "" && h != "." && '/' !in h
    requires |h| <= |x| && x[..|h|] == h
    requires |x| == |h| || x[|h|] == '/'
    ensures DropRoot(x) == x
  {
    assert x[0] == h[0];
  }

  /** The first part of a join, and the separator after it. */
  lemma JoinHead(t: seq<string>, sep: string)
    requires |t| > 1
    ensures var x := Join(t, sep);
      |t[0]| + |sep| <= |x| && x[..|t[0]|] == t[0] && x[|t[0]|..|t[0]| + |sep|] == sep
  {
    JoinCons(t[0], t[1..], sep);
    assert t == [t[0]] + t[1..];
  }

  /** A join of such segments whose first segment is neither `..` nor `.`
      passes `StripUp` and `DropRoot` untouched. */
  lemma PlainJoinKept(t: seq<string>)
    requires t != []
    requires forall i :: 0 <= i < |t| ==> '/' !in t[i] && '\\' !in t[i] && t[i] != ".."
    requires t[0] != "."
    requires t[0] != "" || |t| == 1
    ensures StripUp(Join(t, "/")) == Join(t, "/")
    ensures DropRoot(Join(t, "/")) == Join(t, "/")
  {
    if |t| > 1 {
      ManyJoinKept(t);
    } else if t[0] != "" {
      HeadKept(Join(t, "/"), t[0]);
    }
  }

  lemma ManyJoinKept(t: seq<string>)
    requires |t| > 1
    requires forall i :: 0 <= i < |t| ==> '/' !in t[i] && '\\' !in t[i] && t[i] != ".."
    requires t[0] != "." && t[0] != ""
    ensures StripUp(Join(t, "/")) == Join(t, "/")
    ensures DropRoot(Join(t, "/")) == Join(t, "/")
  {
    var x := Join(t, "/");
    var h := t[0];
    JoinHead(t, "/");
    assert x[|h|] == x[|h|..|h| + 1][0];
    HeadKept(x, h);
  }

  /** The segment list `Join` writes, with the trailing empty segment of a
      trailing slash. */
  lemma {:induction false} RelativeConfined(t: seq<string>)
    requires t != []
    requires forall i :: 0 <= i < |t| ==> '/' !in t[i] && '\\' !in t[i] && t[i] != "."
    requires forall i :: 0 <= i < |t| - 1 ==> t[i] != ""
    requires forall i, j :: 0 <= i < j < |t| && t[j] == ".." ==> t[i] == ".."
    ensures Confined(DropRoot(StripUp(Join(t, "/"))))
  {
    var x := Join(t, "/");
    if t[0] == ".." {
      if |t| == 1 {
        assert StripUp(x) == "";
        assert Split("", '/') == [""];
      } else {
        assert x == ".." + "/" + Join(t[1..], "/");
        assert StartsWith(x, "../");
        assert x[3..] == Join(t[1..], "/");
        RelativeConfined(t[1..]);
      }
    } else {
      assert forall i :: 0 <= i < |t| ==> t[i] != "..";
      PlainJoinKept(t);
      JoinConfined(t);
    }
  }

  /** `StripUp` leaves an absolute path alone. */
  lemma StripUpSlash(n: string)
    requires n != "" && n[0] == '/'
    ensures StripUp(n) == n
  {
    if |n| >= 3 {
      assert n[..3][0] == '/';
    }
  }

  lemma DropSlash(x: string)
    requires x != ""
    ensures DropRoot("/" + x) == x
  {
    assert ("/" + x)[1..] == x;
  }

  /** The three results of a path that resolves to no segment. */
  lemma RootConfined(n: string)
    requires n == "/" || n == "./" || n == "."
    ensures Confined(DropRoot(StripUp(n)))
  {
    if n == "/" {
      IndexConfined();
    } else if n == "." {
      IndexConfined();
    } else {
      assert StripUp("./") == "./";
      assert DropRoot("./") == "./";
      SplitFirst(".", '/', "");
      assert "." + "/" + "" == "./";
      assert Split("", '/') == [""];
    }
  }

  /** An absolute path keeps no `..`, so dropping its `/` leaves it confined. */
  lemma AbsoluteConfined(t: seq<string>)
    requires t != [] && t[0] != ""
    requires forall i :: 0 <= i < |t| ==> '/' !in t[i] && '\\' !in t[i] && t[i] != "." && t[i] != ".."
    ensures Confined(DropRoot(StripUp("/" + Join(t, "/"))))
  {
    var x := Join(t, "/");
    PlainJoinKept(t);
    JoinConfined(t);
    var n := "/" + x;
    StripUpSlash(n);
    assert DropRoot(n) == x;
  }

  /** The segments of a resolved path, with the empty last segment a trailing
      slash adds, are free of `/` and `\` and of `.`. */
  lemma TrailSegments(st: seq<string>, segs: seq<string>, trail: bool, t: seq<string>)
    requires forall i :: 0 <= i < |segs| ==> '/' !in segs[i] && '\\' !in segs[i]
    requires forall i :: 0 <= i < |st| ==> st[i] in segs && st[i] != ""  && st[i] != "."
    requires t == if trail then st + [""] else st
    ensures forall i :: 0 <= i < |t| ==> '/' !in t[i] && '\\' !in t[i] && t[i] != "."
  {
    forall i | 0 <= i < |t| ensures '/' !in t[i] && '\\' !in t[i] && t[i] != "." {
      if i < |st| {
        assert t[i] == st[i];
        assert st[i] in segs;
      }
    }
  }

  /** The heart of `safePathFromUrl`: whatever the (backslash-free) path, the
      normalised, stripped result stays inside the root. */
  lemma NormalizedConfined(p: string)
    requires '\\' !in p
    ensures Confined(DropRoot(StripUp(NormalizePosix(p))))
  {
    if p == "" {
      RootConfined(".");
    } else {
      var segs := Split(p, '/');
      SplitAvoids(p, '/', '\\');
      var abs := p[0] == '/';
      var st := Resolve(segs, !abs);
      ResolveOk(segs, !abs);
      var trail := p[|p| - 1] == '/';
      if st == [] {
        RootConfined(NormalizePosix(p));
      } else {
        var t := if trail then st + [""] else st;
        TrailSegments(st, segs, trail, t);
        if abs {
          assert NormalizePosix(p) == "/" + Join(t, "/");
          AbsoluteConfined(t);
        } else {
          assert NormalizePosix(p) == Join(t, "/");
          RelativeConfined(t);
        }
      }
    }
  }

  /** A segment a served file's path may have. */
  predicate PlainSegment(s: string) {
    s != "" && s != "." && s != ".." && '/' !in s && '\\' !in s && '?' !in s && '#' !in s
  }

  lemma StepPush(st: seq<string>, seg: string, above: bool)
    requires seg != "" && seg != "." && seg != ".."
    ensures Step(st, seg, above) == st + [seg]
  {
  }

  lemma ResolveLast(segs: seq<string>, seg: string, above: bool)
    ensures Resolve(segs + [seg], above) == Step(Resolve(segs, above), seg, above)
  {
    assert (segs + [seg])[..|segs|] == segs;
  }

  /** Plain segments after any prefix are kept as they are. */
  lemma {:induction false} ResolveThen(pre: seq<string>, segs: seq<string>, above: bool)
    requires forall i :: 0 <= i < |segs| ==> PlainSegment(segs[i])
    ensures Resolve(pre + segs, above) == Resolve(pre, above) + segs
  {
    if segs == [] {
      assert pre + segs == pre;
    } else {
      var n := |segs|;
      var init, last := segs[..n - 1], segs[n - 1];
      assert pre + segs == (pre + init) + [last];
      ResolveLast(pre + init, last, above);
      ResolveThen(pre, init, above);
      StepPush(Resolve(pre, above) + init, last, above);
      assert init + [last] == segs;
    }
  }

  lemma ResolvePlain(segs: seq<string>, above: bool)
    requires forall i :: 0 <= i < |segs| ==> PlainSegment(segs[i])
    ensures Resolve([""] + segs, above) == segs
    ensures Resolve(segs, above) == segs
  {
    ResolveThen([""], segs, above);
    assert Resolve([""], above) == Step([], "", above);
    ResolveThen([], segs, above);
    assert [] + segs == segs;
  }

  lemma {:induction false} JoinLastChar(parts: seq<string>, sep: string, l: string)
    requires parts != [] && parts[|parts| - 1] == l && l != ""
    ensures Join(parts, sep) != "" && Join(parts, sep)[|Join(parts, sep)| - 1] == l[|l| - 1]
  {
    if |parts| > 1 {
      JoinLastChar(parts[1..], sep, l);
    }
  }

  lemma SplitNone(s: string, c: char)
    requires c !in s
    ensures Split(s, c) == [s]
  {
  }

  lemma BackslashesNone(s: string)
    requires '\\' !in s
    ensures Backslashes(s) == s
  {
  }

  /** Text with no backslash, `?` or `#` is its own cleaned form. */
  lemma CleanedPlain(d: string)
    requires '\\' !in d && '?' !in d && '#' !in d
    ensures Backslashes(Cleaned(d)) == d
  {
    SplitNone(d, '?');
    SplitNone(d, '#');
    BackslashesNone(d);
  }

  /** Joined segments without a backslash, `?` or `#` are their own cleaned
      form. */
  lemma JoinClean(all: seq<string>)
    requires forall i :: 0 <= i < |all| ==> '\\' !in all[i] && '?' !in all[i] && '#' !in all[i]
    ensures Backslashes(Cleaned(Join(all, "/"))) == Join(all, "/")
  {
    JoinAvoids(all, "/", '\\');
    JoinAvoids(all, "/", '?');
    JoinAvoids(all, "/", '#');
    CleanedPlain(Join(all, "/"));
  }

  lemma CleanSlash(j: string)
    requires '\\' !in j && '?' !in j && '#' !in j
    ensures Backslashes(Cleaned("/" + j)) == "/" + j
  {
    CleanedPlain("/" + j);
  }

  /** Plain segments avoid the characters the cleaning looks at. */
  lemma JoinPlain(segs: seq<string>)
    requires forall i :: 0 <= i < |segs| ==> PlainSegment(segs[i])
    ensures '\\' !in Join(segs, "/") && '?' !in Join(segs, "/") && '#' !in Join(segs, "/")
  {
    JoinAvoids(segs, "/", '\\');
    JoinAvoids(segs, "/", '?');
    JoinAvoids(segs, "/", '#');
  }

  /** A leading `/` is an empty first segment. */
  lemma SplitSlash(j: string)
    ensures Split("/" + j, '/') == [""] + Split(j, '/')
  {
    SplitFirst("", '/', j);
    assert "" + "/" + j == "/" + j;
  }

  /** The result of normalising a path without a trailing slash whose
      segments resolve to a non-empty list. */
  lemma NormalizeShape(p: string, st: seq<string>)
    requires p != "" && p[|p| - 1] != '/'
    requires st != [] && Resolve(Split(p, '/'), p[0] != '/') == st
    ensures NormalizePosix(p) == (if p[0] == '/' then "/" + Join(st, "/") else Join(st, "/"))
  {
  }

  /** Normalisation leaves an absolute path of plain segments as it is. */
  lemma NormalizePlain(segs: seq<string>)
    requires segs != []
    requires forall i :: 0 <= i < |segs| ==> PlainSegment(segs[i])
    ensures NormalizePosix("/" + Join(segs, "/")) == "/" + Join(segs, "/")
  {
    var j := Join(segs, "/");
    var d := "/" + j;
    SplitSlash(j);
    SplitJoin(segs, '/');
    ResolvePlain(segs, false);
    var l := segs[|segs| - 1];
    JoinLastChar(segs, "/", l);
    assert d[|d| - 1] == j[|j| - 1];
    assert l[|l| - 1] in l;
    NormalizeShape(d, segs);
  }

  /** An absolute path of plain segments is served as that path without its
      leading `/`. */
  lemma SanitizePlain(segs: seq<string>)
    requires segs != []
    requires forall i :: 0 <= i < |segs| ==> PlainSegment(segs[i])
    ensures Sanitize("/" + Join(segs, "/")) == Join(segs, "/")
  {
    var j := Join(segs, "/");
    var d := "/" + j;
    JoinPlain(segs);
    CleanSlash(j);
    NormalizePlain(segs);
    JoinFirstChar(segs, "/");
    AbsoluteKept(j);
    SanitizeStages(d, d, j);
  }

  /** A name and a trailing `/` split into the name and an empty segment. */
  lemma SplitNameSlash(name: string)
    requires '/' !in name
    ensures Split(name + "/", '/') == [name, ""]
  {
    SplitFirst(name, '/', "");
    assert name + ['/'] + "" == name + "/";
    SplitNone("", '/');
  }

  lemma SplitTrailing(name: string)
    requires '/' !in name
    ensures Split("/" + name + "/", '/') == ["", name, ""]
  {
    var d := "/" + name + "/";
    assert d == "/" + (name + "/");
    calc {
      Split(d, '/');
      == { SplitSlash(name + "/"); }
      [""] + Split(name + "/", '/');
      == { SplitNameSlash(name); }
      [""] + [name, ""];
      ==
      ["", name, ""];
    }
  }

  /** The trailing empty segment resolves to nothing. */
  lemma ResolveTrailing(name: string, above: bool)
    requires PlainSegment(name)
    ensures Resolve([name, ""], above) == [name]
    ensures Resolve(["", name, ""], above) == [name]
  {
    ResolvePlain([name], above);
    assert [""] + [name] == ["", name];
    ResolveLast([name], "", above);
    ResolveLast(["", name], "", above);
    assert [name] + [""] == [name, ""];
    assert ["", name] + [""] == ["", name, ""];
  }

  /** A plain name asked for as a directory keeps its trailing `/`. */
  lemma SanitizeTrailing(name: string)
    requires PlainSegment(name)
    ensures Sanitize("/" + name + "/") == name + "/"
  {
    var d := "/" + name + "/";
    assert forall c :: c in d ==> c == '/' || c in name;
    CleanedPlain(d);
    NormalizeTrailing(name);
    AbsoluteKept(name + "/");
    SanitizeStages(d, d, name + "/");
  }

  /** Normalisation keeps the leading and the trailing `/` of a plain name. */
  lemma NormalizeTrailing(name: string)
    requires PlainSegment(name)
    ensures NormalizePosix("/" + name + "/") == "/" + (name + "/")
  {
    var d := "/" + name + "/";
    SplitTrailing(name);
    ResolveTrailing(name, false);
    JoinCons(name, [""], "/");
    assert [name] + [""] == [name, ""];
    assert d[0] == '/' && d[|d| - 1] == '/';
  }

  /** `StripUp` and `DropRoot` take an absolute path to its relative form. */
  lemma AbsoluteKept(x: string)
    requires x != ""
    ensures DropRoot(StripUp("/" + x)) == x
  {
    StripUpSlash("/" + x);
    DropSlash(x);
  }

  /** Sanitising, stage by stage. */
  lemma SanitizeStages(d: string, n: string, r: string)
    requires Backslashes(Cleaned(d)) == n
    requires DropRoot(StripUp(NormalizePosix(n))) == r
    ensures Sanitize(d) == r
  {
  }

  /** `n` parent steps. */
  function Dots(n: nat): (r: seq<string>)
    ensures |r| == n && forall i :: 0 <= i < n ==> r[i] == ".."
  {
    if n == 0 then [] else Dots(n - 1) + [".."]
  }

  lemma {:induction false} ResolveDots(k: nat)
    ensures Resolve(Dots(k), true) == Dots(k)
  {
    if k > 0 {
      ResolveDots(k - 1);
      ResolveLast(Dots(k - 1), "..", true);
    }
  }

  lemma ResolveClimb(k: nat, segs: seq<string>)
    requires forall i :: 0 <= i < |segs| ==> PlainSegment(segs[i])
    ensures Resolve(Dots(k) + segs, true) == Dots(k) + segs
  {
    ResolveThen(Dots(k), segs, true);
    ResolveDots(k);
  }

  lemma {:induction false} StripUpClimb(k: nat, segs: seq<string>)
    requires segs != []
    ensures StripUp(Join(Dots(k) + segs, "/")) == StripUp(Join(segs, "/"))
  {
    if k > 0 {
      assert Dots(k) + segs == [".."] + (Dots(k - 1) + segs) by {
        assert Dots(k) == [".."] + Dots(k - 1);
      }
      var rest := Join(Dots(k - 1) + segs, "/");
      JoinCons("..", Dots(k - 1) + segs, "/");
      var x := ".." + "/" + rest;
      assert StartsWith(x, "../");
      assert x[3..] == rest;
      StripUpClimb(k - 1, segs);
    } else {
      assert Dots(k) + segs == segs;
    }
  }

  /** The segments of a climbing path avoid every character the cleaning
      and the normalisation look at, and none is empty. */
  lemma ClimbParts(k: nat, segs: seq<string>, all: seq<string>)
    requires forall i :: 0 <= i < |segs| ==> PlainSegment(segs[i])
    requires all == Dots(k) + segs
    ensures forall i :: 0 <= i < |all| ==> all[i] != "" && '/' !in all[i]
    ensures forall i :: 0 <= i < |all| ==> '\\' !in all[i] && '?' !in all[i] && '#' !in all[i]
  {
    forall i | 0 <= i < |all|
      ensures all[i] != "" && '/' !in all[i] && '\\' !in all[i] && '?' !in all[i] && '#' !in all[i]
    {
      if i >= k {
        assert all[i] == segs[i - k];
      } else {
        assert all[i] == "..";
      }
    }
  }

  /** A join whose first part is non-empty and free of `/` does not start
      with `/`. */
  lemma JoinFirstChar(t: seq<string>, sep: string)
    requires t != [] && t[0] != ""
    ensures Join(t, sep) != "" && Join(t, sep)[0] == t[0][0]
  {
    if |t| > 1 {
      JoinHead(t, sep);
    }
  }

  /** Normalisation keeps the leading `..` of a relative path. */
  lemma NormalizeClimb(k: nat, segs: seq<string>)
    requires segs != []
    requires forall i :: 0 <= i < |segs| ==> PlainSegment(segs[i])
    ensures NormalizePosix(Join(Dots(k) + segs, "/")) == Join(Dots(k) + segs, "/")
  {
    var all := Dots(k) + segs;
    var d := Join(all, "/");
    ClimbParts(k, segs, all);
    SplitJoin(all, '/');
    ResolveClimb(k, segs);
    var l := segs[|segs| - 1];
    assert all[|all| - 1] == l;
    JoinLastChar(all, "/", l);
    assert l[|l| - 1] in l;
    JoinFirstChar(all, "/");
    assert all[0][0] in all[0];
    NormalizeShape(d, all);
  }

  /** A relative path that climbs out of the root first is served as if it
      had not: the leading `..` segments are removed. */
  lemma SanitizeClimb(k: nat, segs: seq<string>)
    requires segs != []
    requires forall i :: 0 <= i < |segs| ==> PlainSegment(segs[i])
    ensures Sanitize(Join(Dots(k) + segs, "/")) == Join(segs, "/")
  {
    var all := Dots(k) + segs;
    var d := Join(all, "/");
    ClimbParts(k, segs, all);
    JoinClean(all);
    NormalizeClimb(k, segs);
    StripUpClimb(k, segs);
    PlainJoinKept(segs);
    SanitizeStages(d, d, Join(segs, "/"));
  }

  /** Splitting at the first separator. */
  lemma SplitFirst(p: string, c: char, q: string)
    requires c !in p
    ensures Split(p + [c] + q, c) == [p] + Split(q, c)
  {
    var d := p + [c] + q;
    assert d[|p|] == c && d[..|p|] == p && d[|p| + 1..] == q;
    assert FirstIndex(d, c) == |p|;
  }

  lemma CleanedQuestion(p: string, q: string)
    requires '?' !in p && '#' !in p
    ensures Cleaned(p + "?" + q) == p
  {
    SplitFirst(p, '?', q);
    assert Split(p, '#') == [p];
  }

  lemma CleanedHash(p: string, q: string)
    requires '?' !in p && '#' !in p
    ensures Cleaned(p + "#" + q) == p
  {
    var d := p + "#" + q;
    if '?' in q {
      var i := FirstIndex(q, '?');
      var h := p + "#" + q[..i];
      assert d == h + "?" + q[i + 1..] by {
        assert q == q[..i] + "?" + q[i + 1..];
      }
      SplitFirst(h, '?', q[i + 1..]);
      SplitFirst(p, '#', q[..i]);
    } else {
      assert Split(d, '?') == [d];
      SplitFirst(p, '#', q);
    }
  }

  /** Whatever follows the first `?` or `#` of the decoded path is ignored. */
  lemma SanitizeQuery(p: string, mark: char, q: string)
    requires mark == '?' || mark == '#'
    requires '?' !in p && '#' !in p
    ensures Sanitize(p + [mark] + q) == Sanitize(p)
  {
    if mark == '?' {
      CleanedQuestion(p, q);
    } else {
      CleanedHash(p, q);
    }
    assert Split(p, '?') == [p];
    assert Split(p, '#') == [p];
  }

  lemma SanitizeEmpty()
    ensures Sanitize("") == "index.html"
  {
    assert Cleaned("") == "";
  }

  lemma SanitizeSlash()
    ensures Sanitize("/") == "index.html"
  {
    CleanedPlain("/");
    SplitFirst("", '/', "");
    assert "" + "/" + "" == "/";
    assert Split("/", '/') == ["", ""];
    ResolveLast([""], "", false);
    assert Resolve(["", ""], false) == [];
  }

  lemma SanitizeDot()
    ensures Sanitize(".") == "index.html"
  {
    CleanedPlain(".");
    assert Split(".", '/') == ["."];
    assert Resolve(["."], true) == [];
  }

  /** An empty path, the root and `.`, with or without a query or fragment,
      are the site's `index.html`. */
  lemma SanitizeRoot(p: string, q: string)
    requires p == "" || p == "/" || p == "."
    requires q == "" || q[0] == '?' || q[0] == '#'
    ensures Sanitize(p + q) == "index.html"
  {
    if q != "" {
      assert p + q == p + [q[0]] + q[1..];
      SanitizeQuery(p, q[0], q[1..]);
    } else {
      assert p + q == p;
    }
    if p == "" {
      SanitizeEmpty();
    } else if p == "/" {
      SanitizeSlash();
    } else {
      SanitizeDot();
    }
  }

  /** A `?` written as `%3F` is decoded first and then cuts the path: the
      split happens after decoding. */
  lemma EscapedQueryCuts(p: string, q: string)
    requires '%' !in p && '?' !in p && '#' !in p && '%' !in q
    ensures SafePathFromUrl(p + "%3F" + q) == Some(Sanitize(p))
  {
    DecodePlainThen(p, "%3F" + q);
    assert p + "%3F" + q == p + ("%3F" + q);
    var e := "%3F" + q;
    assert HexValue(e[1]) == Some(3) && HexValue(e[2]) == Some(15);
    assert DecodeEscape(e) == Some(('?', 3));
    assert e[3..] == q;
    DecodePlain(q);
    assert Decode(e) == Some("?" + q);
    assert p + ("?" + q) == p + ['?'] + q;
    SanitizeQuery(p, '?', q);
  }
}

/** `renderPostPage` and `renderIndexPage` of scripts/build.mjs: the two page
    templates, as lines joined by `"\n"`. Runs of fixed lines are named
    constants; the lines that depend on the input sit between them. */
module Templates {
  import opened Text
  import opened Html
  import opened Dates
  import opened Uri

  /** A built post as the index page receives it. */
  datatype Post = Post(slug: string, title: string, date: string, tags: seq<string>, readingTime: nat)

  // ----------------------------------------------------------------- post page

  const PostHead: seq<string> := [
    "<!doctype html>",
    "<html lang=\"zh-CN\">",
    "  <head>",
    "    <meta charset=\"utf-8\" />",
    "    <meta name=\"viewport\" content=\"width=device-width, initial-scale=1\" />" ]

  const PostHeadEnd: seq<string> := [
    "    <meta name=\"description\" content=\"Venlacy's Blog post.\" />",
    "    <link rel=\"stylesheet\" href=\"../styles.css\" />",
    "    <link rel=\"stylesheet\" href=\"../vendor/katex/katex.min.css\" />",
    "  </head>",
    "  <body class=\"post-page\">",
    "    <div class=\"progress-bar\" aria-hidden=\"true\"></div>",
    "    <article class=\"post\" aria-label=\"博客文章\">",
    "      <a class=\"post__back\" href=\"../index.html\" aria-label=\"返回首页\">返回</a>" ]

  const ContentOpen := "      <div class=\"post__content md\">"
  const ContentClose := "      </div>"

  const PostFoot: seq<string> := [
    "      <footer class=\"post__end\">",
    "        <span class=\"post__end-mark\"></span>",
    "        fin",
    "      </footer>",
    "    </article>",
    "    <script src=\"../post.js\" defer></script>",
    "  </body>",
    "</html>",
    "" ]

  const MetaSep := "<span class=\"post__meta-sep\"></span>"

  function TimeElement(date: string): string {
    "<time class=\"post__date\">" + EscapeHtml(FormatDate(date)) + "</time>"
  }

  /** The text of the reading-time element. */
  function ReadingText(readingTime: nat): string {
    NatToString(readingTime) + " 分钟阅读"
  }

  function ReadingElement(readingTime: nat): string {
    "<span class=\"post__reading-time\">" + ReadingText(readingTime) + "</span>"
  }

  /** The parts of the meta line: the date when it formats to something, the
      reading time when it is not zero. */
  function MetaParts(date: string, readingTime: nat): seq<string> {
    (if FormatDate(date) != "" then [TimeElement(date)] else [])
    + (if readingTime != 0 then [ReadingElement(readingTime)] else [])
  }

  function TagItem(t: string): string {
    "<li class=\"post__tag\">" + EscapeHtml(t) + "</li>"
  }

  function TagItems(tags: seq<string>): string {
    ConcatMap(tags, TagItem)
  }

  /** The tag list line; empty when there are no tags. */
  function TagsHtml(tags: seq<string>): string {
    if |tags| > 0 then "\n      <ul class=\"post__tags\">" + TagItems(tags) + "</ul>" else ""
  }

  function TitleLine(safeTitle: string): string {
    "    <title>" + safeTitle + " · Venlacy's Blog</title>"
  }

  function HeadingLine(safeTitle: string): string {
    "      <h1 class=\"post__title\">" + safeTitle + "</h1>"
  }

  function MetaLine(date: string, readingTime: nat): string {
    "      <div class=\"post__meta\">" + Join(MetaParts(date, readingTime), MetaSep) + "</div>"
  }

  /** The page's lines; the title sits at 5, the heading at 14, the tag list
      at 16 and the content at 18. */
  function PostLines(title: string, date: string, tags: seq<string>, readingTime: nat,
                     contentHtml: string): seq<string>
  {
    var safeTitle := EscapeHtml(title);
    PostFrame(TitleLine(safeTitle),
              [HeadingLine(safeTitle), MetaLine(date, readingTime), TagsHtml(tags),
               ContentOpen, contentHtml, ContentClose])
  }

  /** The fixed runs of a post page around its title line and its body lines. */
  function PostFrame(titleLine: string, body: seq<string>): seq<string> {
    PostHead + [titleLine] + PostHeadEnd + body + PostFoot
  }

  /** The post page as a value. */
  function PostPage(title: string, date: string, tags: seq<string>, readingTime: nat,
                    contentHtml: string): string
  {
    Join(PostLines(title, date, tags, readingTime, contentHtml), "\n")
  }

  /** The meta line's content: the parts pushed one by one, then joined. */
  method RenderMeta(date: string, readingTime: nat) returns (metaHtml: string)
    ensures metaHtml == Join(MetaParts(date, readingTime), MetaSep)
  {
    var dateFmt := FormatDate(date);
    var metaParts: seq<string> := [];
    if dateFmt != "" {
      metaParts := metaParts + ["<time class=\"post__date\">" + EscapeHtml(dateFmt) + "</time>"];
    }
    if readingTime != 0 {
      metaParts := metaParts + ["<span class=\"post__reading-time\">" + ReadingText(readingTime) + "</span>"];
    }
    assert metaParts == MetaParts(date, readingTime);
    metaHtml := Join(metaParts, MetaSep);
  }

  /** The tag list line: one list item per tag, in order. */
  method RenderTags(tags: seq<string>) returns (tagsHtml: string)
    ensures tagsHtml == TagsHtml(tags)
  {
    tagsHtml := "";
    if |tags| > 0 {
      var tagItems := "";
      var k := 0;
      while k < |tags|
        invariant k <= |tags|
        invariant tagItems == ConcatMap(tags[..k], TagItem)
      {
        ConcatMapSnoc(tags[..k], tags[k], TagItem);
        assert tags[..k + 1] == tags[..k] + [tags[k]];
        tagItems := tagItems + TagItem(tags[k]);
        k := k + 1;
      }
      assert tags[..k] == tags;
      tagsHtml := "\n      <ul class=\"post__tags\">" + tagItems + "</ul>";
    }
  }

  /** `renderPostPage`: the meta line and the tag list, placed between the
      fixed lines and joined. */
  method RenderPostPage(title: string, date: string, tags: seq<string>, readingTime: nat,
                        contentHtml: string) returns (html: string)
    ensures html == PostPage(title, date, tags, readingTime, contentHtml)
  {
    var safeTitle := EscapeHtml(title);
    var metaHtml := RenderMeta(date, readingTime);
    var tagsHtml := RenderTags(tags);
    var lines := PostFrame("    <title>" + safeTitle + " · Venlacy's Blog</title>",
                           ["      <h1 class=\"post__title\">" + safeTitle + "</h1>",
                            "      <div class=\"post__meta\">" + metaHtml + "</div>",
                            tagsHtml, ContentOpen, contentHtml, ContentClose]);
    html := Join(lines, "\n");
  }

  lemma PostLinesAt(title: string, date: string, tags: seq<string>, readingTime: nat, contentHtml: string,
                    ls: seq<string>)
    requires ls == PostLines(title, date, tags, readingTime, contentHtml)
    ensures |ls| == 29
      && ls[5] == TitleLine(EscapeHtml(title)) && ls[14] == HeadingLine(EscapeHtml(title))
      && ls[15] == MetaLine(date, readingTime) && ls[16] == TagsHtml(tags)
      && ls[17] == ContentOpen && ls[18] == contentHtml && ls[19] == ContentClose
  {
    var safeTitle := EscapeHtml(title);
    var body := [HeadingLine(safeTitle), MetaLine(date, readingTime), TagsHtml(tags),
                 ContentOpen, contentHtml, ContentClose];
    PostFrameAt(TitleLine(safeTitle), body);
  }

  /** The title line sits at 5 and the six body lines from 14 of 29. */
  lemma PostFrameAt(titleLine: string, body: seq<string>)
    requires |body| == 6
    ensures var ls := PostFrame(titleLine, body);
      && |ls| == 29 && ls[5] == titleLine
      && forall k :: 0 <= k < 6 ==> ls[14 + k] == body[k]
  {
    assert |PostHead| == 5 && |PostHeadEnd| == 8 && |PostFoot| == 9;
  }

  /** The escaped title is both the document title and the heading. */
  lemma PostPageTitle(title: string, date: string, tags: seq<string>, readingTime: nat, contentHtml: string)
    ensures Contains(PostPage(title, date, tags, readingTime, contentHtml), TitleLine(EscapeHtml(title)))
    ensures Contains(PostPage(title, date, tags, readingTime, contentHtml), HeadingLine(EscapeHtml(title)))
  {
    var ls := PostLines(title, date, tags, readingTime, contentHtml);
    PostLinesAt(title, date, tags, readingTime, contentHtml, ls);
    JoinContainsPart(ls, "\n", 5);
    JoinContainsPart(ls, "\n", 14);
  }

  /** The rendered Markdown sits unchanged on its own lines inside the content block. */
  lemma PostPageContent(title: string, date: string, tags: seq<string>, readingTime: nat, contentHtml: string)
    ensures Contains(PostPage(title, date, tags, readingTime, contentHtml),
                     ContentOpen + "\n" + contentHtml + "\n" + ContentClose)
  {
    var ls := PostLines(title, date, tags, readingTime, contentHtml);
    PostLinesAt(title, date, tags, readingTime, contentHtml, ls);
    JoinContainsThree(ls, "\n", 17);
  }

  /** The tag list line is empty exactly when there are no tags, and every
      tag appears escaped in its own list item. */
  lemma PostPageTags(title: string, date: string, tags: seq<string>, readingTime: nat, contentHtml: string)
    ensures PostLines(title, date, tags, readingTime, contentHtml)[16] == "" <==> tags == []
    ensures forall i :: 0 <= i < |tags| ==>
      Contains(PostPage(title, date, tags, readingTime, contentHtml), TagItem(tags[i]))
  {
    var ls := PostLines(title, date, tags, readingTime, contentHtml);
    var page := PostPage(title, date, tags, readingTime, contentHtml);
    PostLinesAt(title, date, tags, readingTime, contentHtml, ls);
    forall i | 0 <= i < |tags|
      ensures Contains(page, TagItem(tags[i]))
    {
      ConcatMapContains(tags, TagItem, i);
      JoinContainsPart(ls, "\n", 16);
      ContainsMiddle("\n      <ul class=\"post__tags\">", TagItems(tags), "</ul>");
      ContainsTransitive(ls[16], TagItems(tags), TagItem(tags[i]));
      ContainsTransitive(page, ls[16], TagItem(tags[i]));
    }
  }

  /** The meta line is empty exactly when there is neither a date nor a
      reading time; without a date it holds the reading time alone, without
      a reading time the date alone, and with both they are joined by the
      separator. */
  lemma PostMeta(date: string, readingTime: nat)
    ensures Join(MetaParts(date, readingTime), MetaSep) == "" <==> date == "" && readingTime == 0
    ensures date == "" ==> Join(MetaParts(date, readingTime), MetaSep)
                           == (if readingTime != 0 then ReadingElement(readingTime) else "")
    ensures readingTime == 0 ==> Join(MetaParts(date, readingTime), MetaSep)
                                 == (if date != "" then TimeElement(date) else "")
    ensures date != "" && readingTime != 0 ==>
      Join(MetaParts(date, readingTime), MetaSep) == TimeElement(date) + MetaSep + ReadingElement(readingTime)
  {
    if date != "" && readingTime != 0 {
      JoinCons(TimeElement(date), [ReadingElement(readingTime)], MetaSep);
    }
  }

  // ---------------------------------------------------------------- index page

  /** The link to a post page, relative to the site root. */
  function Href(slug: string): string {
    "posts/" + Encode(slug) + ".html"
  }

  /** `formatDateShort(date) || "未标注日期"`. */
  function DateOrUnknown(date: string): string {
    if FormatDateShort(date) != "" then FormatDateShort(date) else "未标注日期"
  }

  const TabClassPrefix := "                <button class=\"showcase__tab"

  /** The start of a tab button, up to the end of its class attribute. */
  function TabClass(active: bool): string {
    TabClassPrefix + (if active then " is-active\"" else "\"")
  }

  function TabButton(p: Post, i: nat): string {
    TabClass(i == 0) + TabAttributes(p, i)
  }

  /** The `aria-selected` attribute of a tab. */
  function SelectedAttr(active: bool): string {
    "aria-selected=\"" + (if active then "true" else "false") + "\""
  }

  /** The `tabindex` attribute of a tab. */
  function TabIndexAttr(active: bool): string {
    "tabindex=\"" + (if active then "0" else "-1") + "\""
  }

  function TabAttributes(p: Post, i: nat): string {
    " type=\"button\" id=\"showcase-tab-" + NatToString(i) + "\" role=\"tab\" " + SelectedAttr(i == 0)
    + TabLinkAttributes(p, i)
  }

  /** A tab's attributes after `aria-selected`: the panel it controls, its
      place in the tab order, its index and the post it links to. */
  function TabLinkAttributes(p: Post, i: nat): string {
    " aria-controls=\"showcase-panel-" + NatToString(i) + "\" " + TabIndexAttr(i == 0)
    + " data-showcase-index=\"" + NatToString(i)
    + "\" data-showcase-href=\"" + EscapeHtml(Href(p.slug)) + "\">"
  }

  function TabLines(p: Post, i: nat): seq<string> {
    [ "              <li class=\"showcase__timeline-item\">",
      TabButton(p, i),
      "                  <span class=\"showcase__tab-num\">" + Pad2(i + 1) + "</span>",
      "                  <span class=\"showcase__tab-title\">" + EscapeHtml(p.title) + "</span>",
      "                  <span class=\"showcase__tab-date\">" + EscapeHtml(DateOrUnknown(p.date)) + "</span>",
      "                </button>",
      "              </li>" ]
  }

  function TabItem(p: Post, i: nat): string {
    Join(TabLines(p, i), "\n")
  }

  function ReadingLabel(readingTime: nat): string {
    if readingTime != 0 then NatToString(readingTime) + " 分钟" else "约 1 分钟"
  }

  /** At most the first three tags, joined by a middle dot; a fixed label when there are none. */
  function TagsLabel(tags: seq<string>): string {
    if |tags| > 0 then Join(tags[..if |tags| < 3 then |tags| else 3], " · ") else "未分类"
  }

  /** The `aria-hidden` attribute of a panel. */
  function HiddenAttr(active: bool): string {
    "aria-hidden=\"" + (if active then "false" else "true") + "\""
  }

  function PanelOpen(i: nat): string {
    PanelClassPrefix + (if i == 0 then " is-active\"" else "\"") + PanelAttributes(i)
  }

  /** Everything of a panel's opening tag after its class. */
  function PanelAttributes(i: nat): string {
    " id=\"showcase-panel-" + NatToString(i) + "\" role=\"tabpanel\" aria-labelledby=\"showcase-tab-"
    + NatToString(i) + "\" " + HiddenAttr(i == 0)
    + " data-showcase-index=\"" + NatToString(i) + "\">"
  }

  function PanelIndex(i: nat, total: nat): string {
    "              <p class=\"showcase__panel-index\">" + PanelNumber(i, total) + "</p>"
  }

  /** `${num} / ${total}`. */
  function PanelNumber(i: nat, total: nat): string {
    Pad2(i + 1) + " / " + Pad2(total)
  }

  const PanelLead: seq<string> := [
    "              <p class=\"showcase__panel-lead\">沿着时间轴阅读这篇文章，查看完整正文与上下文。</p>",
    "              <div class=\"showcase__facts\">",
    "                <div class=\"showcase__fact\">",
    "                  <span class=\"showcase__fact-label\">发布日期</span>" ]

  const ReadingFactHead: seq<string> := [
    "                </div>",
    "                <div class=\"showcase__fact\">",
    "                  <span class=\"showcase__fact-label\">预计阅读</span>" ]

  const TagsFactHead: seq<string> := [
    "                </div>",
    "                <div class=\"showcase__fact\">",
    "                  <span class=\"showcase__fact-label\">文章标签</span>" ]

  const FactsEnd: seq<string> := [
    "                </div>",
    "              </div>" ]

  /** The closing lines of a panel, after the opening tag of its read link. */
  const PanelEnd: seq<string> := [
    "                阅读全文",
    "                <svg class=\"showcase__read-icon\" width=\"18\" height=\"18\" viewBox=\"0 0 20 20\" fill=\"none\" aria-hidden=\"true\"><path d=\"M4.5 10H15.5\" stroke=\"currentColor\" stroke-width=\"1.5\" stroke-linecap=\"round\"/><path d=\"M10.5 5L15.5 10L10.5 15\" stroke=\"currentColor\" stroke-width=\"1.5\" stroke-linecap=\"round\" stroke-linejoin=\"round\"/></svg>",
    "              </a>",
    "            </article>" ]

  function PanelLines(p: Post, i: nat, total: nat): seq<string> {
    [PanelOpen(i), PanelIndex(i, total)] + PanelBody(p)
  }

  function PanelBody(p: Post): seq<string> {
    [ "              <h3 class=\"showcase__panel-title\">" + EscapeHtml(p.title) + "</h3>" ]
    + PanelLead
    + [ "                  <time class=\"showcase__fact-value\">" + EscapeHtml(DateOrUnknown(p.date)) + "</time>" ]
    + ReadingFactHead
    + [ "                  <span class=\"showcase__fact-value\">" + EscapeHtml(ReadingLabel(p.readingTime)) + "</span>" ]
    + TagsFactHead
    + [ "                  <span class=\"showcase__fact-value\">" + EscapeHtml(TagsLabel(p.tags)) + "</span>" ]
    + FactsEnd
    + [ "              <a class=\"showcase__read\" href=\"" + EscapeHtml(Href(p.slug)) + "\" aria-label=\"阅读全文："
        + EscapeHtml(p.title) + "\">" ]
    + PanelEnd
  }

  function Panel(p: Post, i: nat, total: nat): string {
    Join(PanelLines(p, i, total), "\n")
  }

  function CardTag(t: string): string {
    "<span class=\"archive-card__tag\">" + EscapeHtml(t) + "</span>"
  }

  function CardTags(tags: seq<string>): string {
    ConcatMap(tags, CardTag)
  }

  const CardEnd: seq<string> := [
    "              <span class=\"archive-card__arrow\">&rarr;</span>",
    "            </div>",
    "          </a>" ]

  function CardLines(p: Post): seq<string> {
    [ "          <a class=\"archive-card\" href=\"" + EscapeHtml(Href(p.slug)) + "\">",
      "            <div class=\"archive-card__tags\">" + CardTags(p.tags) + "</div>",
      "            <h3 class=\"archive-card__title\">" + EscapeHtml(p.title) + "</h3>",
      "            <div class=\"archive-card__footer\">",
      "              <time class=\"archive-card__date\">" + EscapeHtml(FormatDateShort(p.date)) + "</time>" ]
    + CardEnd
  }

  function Card(p: Post): string {
    Join(CardLines(p), "\n")
  }

  function Tabs(posts: seq<Post>): (r: seq<string>)
    ensures |r| == |posts| && forall i :: 0 <= i < |posts| ==> r[i] == TabItem(posts[i], i)
  {
    seq(|posts|, i requires 0 <= i < |posts| => TabItem(posts[i], i))
  }

  function Panels(posts: seq<Post>): (r: seq<string>)
    ensures |r| == |posts| && forall i :: 0 <= i < |posts| ==> r[i] == Panel(posts[i], i, |posts|)
  {
    seq(|posts|, i requires 0 <= i < |posts| => Panel(posts[i], i, |posts|))
  }

  function Cards(posts: seq<Post>): (r: seq<string>)
    ensures |r| == |posts| && forall i :: 0 <= i < |posts| ==> r[i] == Card(posts[i])
  {
    seq(|posts|, i requires 0 <= i < |posts| => Card(posts[i]))
  }

  const ShowcaseHead: seq<string> := [
    "",
    "      <section class=\"showcase\" aria-label=\"叙事时间轴\">",
    "        <div class=\"showcase__inner\">",
    "          <header class=\"showcase__head\">",
    "            <p class=\"showcase__kicker\">Narrative Timeline</p>",
    "            <h2 class=\"showcase__heading\">中间叙事展示</h2>",
    "            <p class=\"showcase__summary\">从最新文章开始，按时间线浏览每篇内容并直接进入全文。</p>",
    "          </header>",
    "          <div class=\"showcase__body\">",
    "            <ol class=\"showcase__timeline\" role=\"tablist\" aria-label=\"文章时间轴\">" ]

  const ShowcaseMid: seq<string> := [
    "            </ol>",
    "            <div class=\"showcase__panels\">" ]

  const ShowcaseControls: seq<string> := [
    "            </div>",
    "          </div>",
    "          <div class=\"showcase__controls\">",
    "            <button class=\"showcase__nav showcase__nav--prev\" type=\"button\" aria-label=\"查看上一篇\">",
    "              <svg width=\"20\" height=\"20\" viewBox=\"0 0 20 20\" fill=\"none\" aria-hidden=\"true\"><path d=\"M12.5 15L7.5 10L12.5 5\" stroke=\"currentColor\" stroke-width=\"1.5\" stroke-linecap=\"round\" stroke-linejoin=\"round\"/></svg>",
    "            </button>",
    "            <button class=\"showcase__nav showcase__nav--next\" type=\"button\" aria-label=\"查看下一篇\">",
    "              <svg width=\"20\" height=\"20\" viewBox=\"0 0 20 20\" fill=\"none\" aria-hidden=\"true\"><path d=\"M7.5 15L12.5 10L7.5 5\" stroke=\"currentColor\" stroke-width=\"1.5\" stroke-linecap=\"round\" stroke-linejoin=\"round\"/></svg>",
    "            </button>" ]

  const ShowcaseEnd: seq<string> := [
    "          </div>",
    "        </div>",
    "      </section>" ]

  /** The counter under the timeline: the current post out of the total. */
  function StatusLine(total: nat): string {
    "            <p class=\"showcase__status\" aria-live=\"polite\">第 <span data-showcase-current>1</span> / <span data-showcase-total>"
    + NatToString(total) + "</span> 篇</p>"
  }

  /** `a`, then the line `x`, then `b`. */
  function Around(a: seq<string>, x: string, b: seq<string>): (r: seq<string>)
    ensures |r| == |a| + 1 + |b| && r[|a|] == x
    ensures forall k :: 0 <= k < |b| ==> r[|a| + 1 + k] == b[k]
  {
    a + [x] + b
  }

  function ShowcaseLines(posts: seq<Post>): seq<string> {
    Around(ShowcaseHead, Join(Tabs(posts), "\n"),
           Around(ShowcaseMid, Join(Panels(posts), "\n"),
                  Around(ShowcaseControls, StatusLine(|posts|), ShowcaseEnd)))
  }

  /** The timeline and panels; empty when there are no posts. */
  function Showcase(posts: seq<Post>): string {
    if |posts| > 0 then Join(ShowcaseLines(posts), "\n") else ""
  }

  const ArchiveHead: seq<string> := [
    "",
    "      <section class=\"archive\" aria-label=\"文章归档\">",
    "        <h2 class=\"archive__heading\">Archive</h2>",
    "        <div class=\"archive__grid\">" ]

  const ArchiveFoot: seq<string> := [
    "        </div>",
    "      </section>" ]

  function ArchiveLines(posts: seq<Post>): seq<string> {
    Around(ArchiveHead, Join(Cards(posts), "\n"), ArchiveFoot)
  }

  /** The card grid; empty when there are no posts. */
  function Archive(posts: seq<Post>): string {
    if |posts| > 0 then Join(ArchiveLines(posts), "\n") else ""
  }

  const IndexHead: seq<string> := [
    "<!doctype html>",
    "<html lang=\"zh-CN\">",
    "  <head>",
    "    <meta charset=\"utf-8\" />",
    "    <meta name=\"viewport\" content=\"width=device-width, initial-scale=1\" />",
    "    <title>Venlacy's Blog</title>",
    "    <meta",
    "      name=\"description\"",
    "      content=\"Venlacy's Blog. Motion-driven editorial blog experience.\"",
    "    />",
    "    <link rel=\"stylesheet\" href=\"styles.css\" />",
    "  </head>",
    "  <body>",
    "    <main>",
    "      <section class=\"hero\" aria-label=\"首页\">",
    "        <div class=\"hero__inner\">",
    "          <p class=\"hero__issue\">Issue 001</p>",
    "          <h1 class=\"hero__title\">Venlacy's Blog</h1>",
    "          <hr class=\"hero__rule\" />",
    "          <p class=\"hero__tagline\">thoughts, craft &amp; code</p>",
    "        </div>",
    "      </section>",
    "" ]

  const IndexFoot: seq<string> := [
    "    </main>",
    "",
    "    <script src=\"main.js\" defer></script>",
    "  </body>",
    "</html>",
    "" ]

  function IndexLines(showcase: string, archive: string): seq<string> {
    Around(IndexHead, showcase, [archive] + IndexFoot)
  }

  /** `renderIndexPage(posts)`. */
  function IndexPage(posts: seq<Post>): string {
    Join(IndexLines(Showcase(posts), Archive(posts)), "\n")
  }

  lemma JoinOfMany(parts: seq<string>, sep: string)
    requires |parts| >= 2 && sep != ""
    ensures Join(parts, sep) != ""
  {
  }

  /** Without posts both sections are left out and the page is the bare hero. */
  lemma IndexPageEmpty(posts: seq<Post>)
    ensures Showcase(posts) == "" <==> posts == []
    ensures Archive(posts) == "" <==> posts == []
    ensures posts == [] ==> IndexPage(posts) == Join(IndexLines("", ""), "\n")
  {
    if posts != [] {
      JoinOfMany(ShowcaseLines(posts), "\n");
      JoinOfMany(ArchiveLines(posts), "\n");
    }
  }

  lemma IndexContainsShowcaseLine(posts: seq<Post>, k: nat)
    requires posts != [] && k < |ShowcaseLines(posts)|
    ensures Contains(IndexPage(posts), ShowcaseLines(posts)[k])
  {
    JoinContainsPart(ShowcaseLines(posts), "\n", k);
    JoinContainsPart(IndexLines(Showcase(posts), Archive(posts)), "\n", |IndexHead|);
    ContainsTransitive(IndexPage(posts), Showcase(posts), ShowcaseLines(posts)[k]);
  }

  lemma IndexContainsArchiveLine(posts: seq<Post>, k: nat)
    requires posts != [] && k < |ArchiveLines(posts)|
    ensures Contains(IndexPage(posts), ArchiveLines(posts)[k])
  {
    JoinContainsPart(ArchiveLines(posts), "\n", k);
    JoinContainsPart(IndexLines(Showcase(posts), Archive(posts)), "\n", |IndexHead| + 1);
    ContainsTransitive(IndexPage(posts), Archive(posts), ArchiveLines(posts)[k]);
  }

  /** Where the three lists sit among the section lines. */
  lemma SectionLinesAt(posts: seq<Post>)
    ensures ShowcaseLines(posts)[|ShowcaseHead|] == Join(Tabs(posts), "\n")
    ensures ShowcaseLines(posts)[|ShowcaseHead| + 1 + |ShowcaseMid|] == Join(Panels(posts), "\n")
    ensures ArchiveLines(posts)[|ArchiveHead|] == Join(Cards(posts), "\n")
  {
    var rest := Around(ShowcaseMid, Join(Panels(posts), "\n"),
                       Around(ShowcaseControls, StatusLine(|posts|), ShowcaseEnd));
    assert ShowcaseLines(posts)[|ShowcaseHead| + 1 + |ShowcaseMid|] == rest[|ShowcaseMid|];
  }

  /** Every post has its tab, its panel and its card on the page. */
  lemma IndexPagePerPost(posts: seq<Post>, i: nat)
    requires i < |posts|
    ensures Contains(IndexPage(posts), TabItem(posts[i], i))
    ensures Contains(IndexPage(posts), Panel(posts[i], i, |posts|))
    ensures Contains(IndexPage(posts), Card(posts[i]))
  {
    var page := IndexPage(posts);
    SectionLinesAt(posts);
    IndexContainsShowcaseLine(posts, |ShowcaseHead|);
    JoinContainsPart(Tabs(posts), "\n", i);
    ContainsTransitive(page, Join(Tabs(posts), "\n"), TabItem(posts[i], i));
    IndexContainsShowcaseLine(posts, |ShowcaseHead| + 1 + |ShowcaseMid|);
    JoinContainsPart(Panels(posts), "\n", i);
    ContainsTransitive(page, Join(Panels(posts), "\n"), Panel(posts[i], i, |posts|));
    IndexContainsArchiveLine(posts, |ArchiveHead|);
    JoinContainsPart(Cards(posts), "\n", i);
    ContainsTransitive(page, Join(Cards(posts), "\n"), Card(posts[i]));
  }

  lemma PairRun(parts: seq<string>, i: nat)
    requires i + 1 < |parts|
    ensures Contains(Join(parts, "\n"), parts[i] + "\n" + parts[i + 1])
  {
    JoinContainsRun(parts, "\n", i, i + 2);
    assert parts[i..i + 2] == [parts[i], parts[i + 1]];
    JoinCons(parts[i], [parts[i + 1]], "\n");
  }

  /** Consecutive posts appear in input order: the tab of post `i` is
      directly followed by the tab of post `i + 1`, and likewise for panels
      and cards. */
  lemma IndexPageOrder(posts: seq<Post>, i: nat)
    requires i + 1 < |posts|
    ensures Contains(IndexPage(posts), TabItem(posts[i], i) + "\n" + TabItem(posts[i + 1], i + 1))
    ensures Contains(IndexPage(posts), Panel(posts[i], i, |posts|) + "\n" + Panel(posts[i + 1], i + 1, |posts|))
    ensures Contains(IndexPage(posts), Card(posts[i]) + "\n" + Card(posts[i + 1]))
  {
    var page := IndexPage(posts);
    SectionLinesAt(posts);
    IndexContainsShowcaseLine(posts, |ShowcaseHead|);
    PairRun(Tabs(posts), i);
    ContainsTransitive(page, Join(Tabs(posts), "\n"), TabItem(posts[i], i) + "\n" + TabItem(posts[i + 1], i + 1));
    IndexContainsShowcaseLine(posts, |ShowcaseHead| + 1 + |ShowcaseMid|);
    PairRun(Panels(posts), i);
    ContainsTransitive(page, Join(Panels(posts), "\n"),
                       Panel(posts[i], i, |posts|) + "\n" + Panel(posts[i + 1], i + 1, |posts|));
    IndexContainsArchiveLine(posts, |ArchiveHead|);
    PairRun(Cards(posts), i);
    ContainsTransitive(page, Join(Cards(posts), "\n"), Card(posts[i]) + "\n" + Card(posts[i + 1]));
  }

  lemma PrefixOfConcat(a: string, b: string)
    ensures StartsWith(a + b, a)
  {
    assert (a + b)[..|a|] == a;
  }

  lemma CharAfter(p: string, s: string, r: string)
    requires s != []
    ensures (p + s + r)[|p|] == s[0]
  {
  }

  /** Only the first tab is active: its button alone carries `is-active`, and
      its `aria-selected` and `tabindex` take the active values while every
      other tab's take the inactive ones. */
  lemma TabActiveIff(p: Post, i: nat)
    ensures StartsWith(TabButton(p, i), TabClass(true)) <==> i == 0
    ensures Contains(TabAttributes(p, i), if i == 0 then "aria-selected=\"true\"" else "aria-selected=\"false\"")
    ensures Contains(TabAttributes(p, i), if i == 0 then "tabindex=\"0\"" else "tabindex=\"-1\"")
  {
    var rest := TabAttributes(p, i);
    if i == 0 {
      PrefixOfConcat(TabClass(true), rest);
    } else {
      CharAfter(TabClassPrefix, "\"", rest);
      CharAfter(TabClassPrefix, " is-active\"", "");
      assert TabClass(true) == TabClassPrefix + " is-active\"" + "";
    }
    TabAttributeValues(p, i);
    AttrTexts();
  }

  lemma TabAttributeValues(p: Post, i: nat)
    ensures Contains(TabAttributes(p, i), SelectedAttr(i == 0))
    ensures Contains(TabAttributes(p, i), TabIndexAttr(i == 0))
  {
    TabSelectedValue(p, i);
    TabIndexValue(p, i);
  }

  lemma TabSelectedValue(p: Post, i: nat)
    ensures Contains(TabAttributes(p, i), SelectedAttr(i == 0))
  {
    var head := " type=\"button\" id=\"showcase-tab-" + NatToString(i) + "\" role=\"tab\" ";
    ContainsMiddle(head, SelectedAttr(i == 0), TabLinkAttributes(p, i));
  }

  lemma TabIndexValue(p: Post, i: nat)
    ensures Contains(TabAttributes(p, i), TabIndexAttr(i == 0))
  {
    var n := NatToString(i);
    var head := " aria-controls=\"showcase-panel-" + n + "\" ";
    var tail := " data-showcase-index=\"" + n + "\" data-showcase-href=\"" + EscapeHtml(Href(p.slug)) + "\">";
    assert TabLinkAttributes(p, i) == head + TabIndexAttr(i == 0) + tail;
    ContainsMiddle(head, TabIndexAttr(i == 0), tail);
    var pre := " type=\"button\" id=\"showcase-tab-" + n + "\" role=\"tab\" " + SelectedAttr(i == 0);
    ContainsMiddle(pre, TabLinkAttributes(p, i), "");
    assert TabAttributes(p, i) == pre + TabLinkAttributes(p, i) + "";
    ContainsTransitive(TabAttributes(p, i), TabLinkAttributes(p, i), TabIndexAttr(i == 0));
  }

  const PanelClassPrefix := "            <article class=\"showcase__panel"
  const PanelClassActive := PanelClassPrefix + " is-active\""

  /** Only the first panel is active: it alone starts with the `is-active`
      class, and its `aria-hidden` is `false` while every other panel's is
      `true`. */
  lemma PanelActiveIff(i: nat)
    ensures StartsWith(PanelOpen(i), PanelClassActive) <==> i == 0
    ensures Contains(PanelOpen(i), if i == 0 then "aria-hidden=\"false\"" else "aria-hidden=\"true\"")
  {
    PanelClassIff(i);
    PanelHiddenValue(i);
    AttrTexts();
  }

  lemma PanelClassIff(i: nat)
    ensures StartsWith(PanelOpen(i), PanelClassActive) <==> i == 0
  {
    var rest := PanelAttributes(i);
    if i == 0 {
      PrefixOfConcat(PanelClassActive, rest);
    } else {
      CharAfter(PanelClassPrefix, "\"", rest);
      CharAfter(PanelClassPrefix, " is-active\"", "");
      assert PanelClassActive == PanelClassPrefix + " is-active\"" + "";
    }
  }

  /** The flag-dependent attributes spelled out. */
  lemma AttrTexts()
    ensures HiddenAttr(true) == "aria-hidden=\"false\"" && HiddenAttr(false) == "aria-hidden=\"true\""
    ensures SelectedAttr(true) == "aria-selected=\"true\"" && SelectedAttr(false) == "aria-selected=\"false\""
    ensures TabIndexAttr(true) == "tabindex=\"0\"" && TabIndexAttr(false) == "tabindex=\"-1\""
  {
  }

  lemma PanelHiddenValue(i: nat)
    ensures Contains(PanelOpen(i), HiddenAttr(i == 0))
  {
    var n := NatToString(i);
    var head := " id=\"showcase-panel-" + n + "\" role=\"tabpanel\" aria-labelledby=\"showcase-tab-" + n + "\" ";
    var tail := " data-showcase-index=\"" + n + "\">";
    assert PanelAttributes(i) == head + HiddenAttr(i == 0) + tail;
    ContainsMiddle(head, HiddenAttr(i == 0), tail);
    var pre := PanelClassPrefix + (if i == 0 then " is-active\"" else "\"");
    ContainsMiddle(pre, PanelAttributes(i), "");
    assert PanelOpen(i) == pre + PanelAttributes(i) + "";
    ContainsTransitive(PanelOpen(i), PanelAttributes(i), HiddenAttr(i == 0));
  }

  /** The panel label counts from `01` to the total. */
  lemma PanelLabel(posts: seq<Post>, i: nat)
    requires i < |posts|
    ensures Contains(IndexPage(posts), PanelIndex(i, |posts|))
    ensures Contains(IndexPage(posts), Pad2(i + 1) + " / " + Pad2(|posts|))
  {
    IndexPagePerPost(posts, i);
    PanelContainsIndex(posts[i], i, |posts|);
    ContainsTransitive(IndexPage(posts), Panel(posts[i], i, |posts|), PanelIndex(i, |posts|));
    IndexLabel(i, |posts|);
    ContainsTransitive(IndexPage(posts), PanelIndex(i, |posts|), Pad2(i + 1) + " / " + Pad2(|posts|));
  }

  /** The panel's label line shows `NN / total`. */
  lemma IndexLabel(i: nat, total: nat)
    ensures Contains(PanelIndex(i, total), Pad2(i + 1) + " / " + Pad2(total))
  {
    ContainsMiddle("              <p class=\"showcase__panel-index\">", PanelNumber(i, total), "</p>");
  }

  lemma PanelContainsIndex(p: Post, i: nat, total: nat)
    ensures Contains(Panel(p, i, total), PanelIndex(i, total))
  {
    JoinContainsSecond(PanelOpen(i), PanelIndex(i, total), PanelBody(p), "\n");
  }
}

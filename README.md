# venblog, modelled in Dafny

This project models the deterministic core of venblog, a small static blog
generator. Its parts are:

- **`build`** (scripts/build.mjs). It reads `posts/*.md` and parses each
  file's `---` front-matter header. It strips a leading `# ` heading,
  estimates the reading time and renders one page per post. Then it sorts
  the posts newest first and writes the index page.
- **`list`** (lib/commands/list.mjs). It prints the same posts as a table,
  using the visual-width helpers `pad` and `truncate`.
- **`new-post`** (lib/commands/new-post.mjs). It scaffolds a new Markdown
  file.
- **The development server** (scripts/serve.mjs). It maps a request URL to
  a file under the site root (`safePathFromUrl`) and answers 200, 403, 404
  or 500. It also serialises rebuilds when watched files change.
- **The browser-side language toggle** (i18n.js). It provides the FNV-1a
  cache key, the translation cache, the saved original texts and the fixed
  English rewrites of the reading time, post date and archive status.

Each module follows one source file, or one concern of a source file:

| module | models |
|---|---|
| `Text` | string helpers the JavaScript uses: `trim`, `split`/`join`, `indexOf`, `padStart`, `String(n)`, CRLF normalisation |
| `Sorting` | the stable `Array.prototype.sort` |
| `Html` | `escapeHtml` |
| `Frontmatter` | `parseFrontmatter` |
| `Heading` | `stripLeadingH1` |
| `ReadingTime` | `estimateReadingTime` |
| `Dates` | `formatDate`, `formatDateShort`, `todayStr` |
| `Templates` | `renderPostPage`, `renderIndexPage` |
| `Posts` | the directory filter, the file-name order, the post record and the newest-first order, shared by `build` and `list` |
| `Builder` | `build` |
| `Listing` | `list`, `pad`, `truncate` |
| `NewPost` | `newPost` |
| `Uri` | `encodeURIComponent` and `decodeURIComponent` |
| `SafePath` | `safePathFromUrl` with `path.posix.normalize` |
| `Server` | the request handler and the MIME table |
| `Rebuild` | the `building`/`pendingBuild` latch |
| `I18n` | i18n.js |

Operations that loop in the source are written as methods with loops. Each
such method is proved equal to a specification function, and the
properties are proved about that function. These methods are
`ParseFrontmatter`, `StripLeadingH1`, `Build`, `List`, `Pad`, `Truncate`,
`RenderTags` (the `tags.map(…).join("")` of `renderPostPage`) and `Fnv`.
`RenderPostPage` computes the meta line, the tag line and the page lines
one after another, as `renderPostPage` does, and is proved equal to
`PostPage`.

State that the source mutates is modelled as classes:
- the rebuild latch (`Rebuild.Rebuilder`);
- the `posts/` directory written by `new-post` (`NewPost.Workspace`);
- the browser page with its `localStorage`, `origMap`, `data-lang` and
  button text (`I18n.Page`).

File system contents are parameters:
- a directory listing is an `Option<seq<DirEntry>>`, where `None` means
  `readdir` threw;
- the readable files are a `map` from name to text;
- the served tree is a `map` from root-relative key to node.

The Markdown renderer (the `unified` pipeline of remark-parse, remark-gfm,
remark-math, remark-rehype, rehype-katex and rehype-stringify) is an
arbitrary function parameter `render`.

Behaviours of the code that the proofs make explicit:
- `new-post` with no tags writes `tags: []`, and `parseFrontmatter` reads
  that back as the one tag `"[]"` (`NewPost.NoTagsReadBack`,
  `Frontmatter.EmptyBracketsIsOneTag`).
- `stripLeadingH1` is not idempotent: two leading headings lose one per
  call (`Heading.StripH1NotIdempotent`).
- `list` estimates reading time on the body *with* its heading, while
  `build` strips it first. The two records agree otherwise
  (`Listing.ListAgreesWithBuild`).
- `truncate` cuts every title wider than `maxVisualWidth - 1` columns, so
  a title exactly `maxVisualWidth` columns wide is cut too (`"abcd"` at 4
  becomes `"abc…"`). When the cut falls just before a final `…`, which
  counts two columns, the result equals the input: `"ab…"` at width 4 is
  cut to `"ab" + "…"` (`Listing.TruncateEllipsisCorner`).
- `decodeURIComponent` runs before the query is cut off, so an escaped
  `%3F` ends the path (`SafePath.EscapedQueryCuts`). A malformed escape
  makes the handler answer 500 (`Server.MalformedIsError`).
- When `readdir` of `posts/` fails, `build` throws; it has no fallback.
  The model records the throw as `Outcome([], None)`: no writes, and
  `posts == None` in place of a post list (`Builder.NoDirectory`), while
  `list` prints a warning (`Listing.ListMissingDir`).
- A month outside 1..12 in the English date rewrite indexes past `MONTHS`
  and prints `undefined` (`I18n.DateMonthOutOfRange`).

## Model

| member | source | states |
|---|---|---|
| Text.Split | scripts/build.mjs:43 | `split` gives at least one piece; no piece contains the separator; joining the pieces with it gives the input back |
| Text.SplitJoin | scripts/build.mjs:43 | splitting the join of separator-free pieces returns exactly those pieces |
| Text.TrimIsTrimmed | scripts/build.mjs:46-47 | `trim` leaves no leading or trailing whitespace |
| Text.TrimEmptyIffAllSpace | i18n.js:22 | `trim()` is empty exactly when the text is all whitespace |
| Text.IndexOfFrom | scripts/build.mjs:34 | `indexOf(pat, from)` is the first match at or after `from`, and -1 exactly when there is none |
| Text.NormalizeNewlines | scripts/build.mjs:30 | no carriage return is left, and text without one is unchanged |
| Text.PadStart | scripts/build.mjs:108-109 | `padStart` gives length max(n, length) with fill characters prepended to the string |
| Text.NatToString | scripts/build.mjs:99 | `String(n)` is a non-empty digit string without a leading zero |
| Text.NatToStringValue | scripts/build.mjs:99 | the digits of `String(n)` read back as n |
| Text.StrLessTotal | scripts/build.mjs:366 | the string order used for `localeCompare` is total |
| Text.StrLessTransitive | scripts/build.mjs:366 | that order is transitive |
| Sorting.SortPermutes | scripts/build.mjs:396-401 | sorting returns a permutation of its input |
| Sorting.SortSorted | scripts/build.mjs:396-401 | for a strict weak order the result is sorted |
| Sorting.SortStable | scripts/build.mjs:396-401 | elements the comparator calls equal keep their relative order |
| Sorting.StableSortUnique | scripts/build.mjs:396-401 | any sorted permutation that keeps equal elements in order is the sort's result, so a stable `sort` is fully determined |
| Sorting.SortIdempotent | scripts/build.mjs:396-401 | sorting twice is sorting once |
| Html.EscapeHtml | scripts/build.mjs:15-22 | the result has no `<`, `>`, `"` or `'`; every `&` in it starts one of the five entities; unescaping it gives the input back |
| Html.EscapeHtmlPerChar | scripts/build.mjs:15-22 | the chain of five `replaceAll` calls equals one per-character substitution, because `&` is replaced first |
| Html.EscapeEachSafe | scripts/build.mjs:15-22 | escaped text is safe markup: no markup character, and every `&` begins an entity |
| Html.UnescapeEscape | scripts/build.mjs:15-22 | a single-pass entity decoder inverts the escaping |
| Frontmatter.SplitFrontmatter | scripts/build.mjs:31-40 | with a header, the text is `---\n` + block + `\n---\n` + body, and the block holds no earlier closing marker; without one, the text has no opening marker or no closing marker |
| Frontmatter.NoHeaderFallback | scripts/build.mjs:31-33 | text without the opening marker parses to empty metadata and the normalised text as body |
| Frontmatter.KeyValue | scripts/build.mjs:44-47 | a line is skipped exactly when it has no colon |
| Frontmatter.KeyValueFirstColon | scripts/build.mjs:44-47 | the key and value are the trimmed text before and after the first colon |
| Frontmatter.TagsOfClean | scripts/build.mjs:49-56 | for a trimmed value every tag is non-empty and trimmed; a bracketed list gives comma-free tags, and brackets without a comma give their trimmed content as the one tag (or none) |
| Frontmatter.SplitList | scripts/build.mjs:53 | every tag is non-empty and comma-free |
| Frontmatter.SplitListTrimmed | scripts/build.mjs:53 | every tag is trimmed |
| Frontmatter.SplitListJoin | scripts/build.mjs:53 | tags joined with `", "` split back to the same tags |
| Frontmatter.FrontmatterOf | scripts/build.mjs:29-63 | the result is the fold of the header lines plus the body, or empty metadata plus the whole text when no header is found |
| Frontmatter.ParseFrontmatter | scripts/build.mjs:29-63 | the line loop computes `FrontmatterOf` |
| Frontmatter.ApplyLineSets | scripts/build.mjs:57-58 | a `key: value` line sets that field |
| Frontmatter.ApplyLineKeeps | scripts/build.mjs:43-59 | a line for another key changes neither this field nor the tags |
| Frontmatter.MetaOfLastWins | scripts/build.mjs:43-60 | when a key repeats, its last line wins |
| Frontmatter.MetaOfLastTags | scripts/build.mjs:49-56 | the last `tags` line decides the tags |
| Frontmatter.MetaOfAbsent | scripts/build.mjs:43-60 | a key on no line is absent from the result |
| Frontmatter.MetaOfNoTagsField | scripts/build.mjs:49-58 | `tags` never lands among the string fields |
| Frontmatter.EmptyBracketsIsOneTag | scripts/build.mjs:51-55 | `tags: []` parses as the single tag `"[]"` |
| Heading.Lines | scripts/build.mjs:69 | the lines join back with `\n` to the normalised text |
| Heading.SkipBlank | scripts/build.mjs:71 | the index reached is past only blank lines and stops at a non-blank one or the end |
| Heading.StripLeadingH1 | scripts/build.mjs:68-78 | the loop computes `StripH1` |
| Heading.StripH1KeepsPlainBody | scripts/build.mjs:68-78 | without a leading `# ` heading the text is unchanged, apart from newline normalisation |
| Heading.StripH1DropsOneHeading | scripts/build.mjs:70-77 | with one, exactly the blank lines, that heading and the blank lines after it are dropped |
| Heading.H1NotBlank | scripts/build.mjs:72 | a heading line is never blank |
| Heading.StripLoneHeading | scripts/build.mjs:72-75 | a lone heading strips to the empty text |
| Heading.TwoHeadings | scripts/build.mjs:68-78 | of two leading headings one call strips the first, a second call the other |
| Heading.StripH1NotIdempotent | scripts/build.mjs:68-78 | stripping is not idempotent (`# A\n# B`) |
| ReadingTime.StripTags | scripts/build.mjs:85 | removing tags never lengthens the text, and text without `<` is unchanged |
| ReadingTime.StripTagsPlain | scripts/build.mjs:85 | text before the first `<` is kept as it is |
| ReadingTime.StripTagsTag | scripts/build.mjs:85 | a tag `<t>`, with `t` non-empty and free of `>`, is removed and the scan goes on after its `>` |
| ReadingTime.StripTagsKeepsText | scripts/build.mjs:85 | in `a<t>b` the tag is removed and `a` kept, and `b` is stripped in turn |
| ReadingTime.StripBlockMath | scripts/build.mjs:85 | the same bound for `$$…$$` blocks, and text without `$` is unchanged |
| ReadingTime.StripBlockMathPlain | scripts/build.mjs:85 | text before the first `$` is kept by the block pass |
| ReadingTime.StripBlockMathBlock | scripts/build.mjs:85 | a `$$t$$` block, ended by the next `$$`, is removed |
| ReadingTime.StripBlockMathKeepsText | scripts/build.mjs:85 | in `a$$t$$b` the block is removed and `a` kept, and `b` is stripped in turn |
| ReadingTime.StripInlineMath | scripts/build.mjs:85 | the same bound for `$…$` spans, and text without `$` is unchanged |
| ReadingTime.StripInlineMathPlain | scripts/build.mjs:85 | text before the first `$` is kept by the inline pass |
| ReadingTime.StripInlineMathSpan | scripts/build.mjs:85 | a `$t$` span with non-empty, `$`-free `t` is removed |
| ReadingTime.StripInlineMathKeepsText | scripts/build.mjs:85 | in `a$t$b` the span is removed and `a` kept, and `b` is stripped in turn |
| ReadingTime.TagNotCounted | scripts/build.mjs:84-90 | a tag changes neither the counted text nor the estimate |
| ReadingTime.BlockMathNotCounted | scripts/build.mjs:84-90 | display math changes neither the counted text nor the estimate |
| ReadingTime.CleanPlain | scripts/build.mjs:85 | text with neither `<` nor `$` is counted as it is |
| ReadingTime.CjkCount | scripts/build.mjs:86 | the CJK count is at most the length |
| ReadingTime.WordCount | scripts/build.mjs:87 | the word count is at most the length |
| ReadingTime.CjkCountAppend | scripts/build.mjs:86 | CJK characters count additively over concatenation |
| ReadingTime.WordCountSplit | scripts/build.mjs:87 | words count additively across a separator |
| ReadingTime.CjkCharCounts | scripts/build.mjs:86-87 | a CJK character adds one to the CJK count and also separates words |
| ReadingTime.Minutes | scripts/build.mjs:88-89 | at least one minute, and otherwise within half a minute of cjk/300 + words/200 |
| ReadingTime.MinutesNearest | scripts/build.mjs:88-89 | the estimate is 1 exactly when the weighted count is under 1.5 minutes, and otherwise rounds to the nearest minute |
| ReadingTime.MinutesMonotone | scripts/build.mjs:88-89 | more text never means fewer minutes |
| ReadingTime.EstimateReadingTime | scripts/build.mjs:84-90 | the estimate is at least one minute |
| Dates.MatchDate | scripts/build.mjs:97 | a match splits the text into 4, 2 and 2 digits joined by `-` |
| Dates.MatchDateComplete | scripts/build.mjs:97 | every such text matches, with those parts |
| Dates.FormatDate | scripts/build.mjs:95-100 | empty stays empty, a non-match is returned unchanged, and the result is empty only for empty input |
| Dates.FormatDateShape | scripts/build.mjs:99 | a match becomes `Y 年 M 月 D 日` with month and day as numbers without leading zeros |
| Dates.Pad2 | scripts/build.mjs:109 | two-digit zero padding keeps the value and has length 2 below 100 |
| Dates.FormatDateShort | scripts/build.mjs:105-110 | the same cases as `formatDate` |
| Dates.FormatDateShortShape | scripts/build.mjs:109 | a match becomes `YYYY.MM.DD` with the same month and day values |
| Dates.TodayStringMatches | lib/commands/new-post.mjs:66-72 | the date `todayStr` builds matches the `YYYY-MM-DD` pattern with the year and padded month and day |
| Templates.RenderMeta | scripts/build.mjs:116-121 | pushing the date and the reading time as present, then joining with the separator, gives the meta line `PostMeta` characterises |
| Templates.RenderTags | scripts/build.mjs:123-127 | the items appended tag by tag, in order, give the tag line `PostPageTags` characterises |
| Templates.RenderPostPage | scripts/build.mjs:114-160 | assembling the escaped title, the meta line, the tag line and the content into the page lines gives the page whose slots `PostLinesAt` fixes |
| Templates.PostLinesAt | scripts/build.mjs:129-159 | the page has 29 lines, with the escaped title in `<title>` and `<h1>`, then the meta, the tags and the content in their slots |
| Templates.PostPageTitle | scripts/build.mjs:135-144 | the page carries the escaped title in `<title>` and in the heading |
| Templates.PostPageContent | scripts/build.mjs:147-149 | the rendered content appears verbatim inside the content `div` |
| Templates.PostPageTags | scripts/build.mjs:123-127 | the tag line is empty exactly when there are no tags, and every tag's item appears |
| Templates.PostMeta | scripts/build.mjs:118-121 | the meta line holds the date, the reading time, both joined by the separator, or nothing, as each is present |
| Templates.IndexPageEmpty | scripts/build.mjs:162-320 | showcase and archive are empty exactly when there are no posts, and then the page is the bare frame |
| Templates.IndexPagePerPost | scripts/build.mjs:168-274 | every post has its tab, its panel and its archive card on the index page |
| Templates.IndexPageOrder | scripts/build.mjs:168-274 | consecutive posts have adjacent tabs, panels and cards, in list order |
| Templates.TabActiveIff | scripts/build.mjs:173-176 | a tab button carries `is-active` exactly when it is the first; the first has `aria-selected="true"` and `tabindex="0"`, every other `aria-selected="false"` and `tabindex="-1"` |
| Templates.PanelActiveIff | scripts/build.mjs:193-195 | a panel starts with the `is-active` class exactly when it is the first; the first has `aria-hidden="false"`, every other `aria-hidden="true"` |
| Templates.PanelLabel | scripts/build.mjs:166-196 | the index page shows each panel's `NN / total` label, both numbers zero-padded to two digits without changing their values |
| Posts.MdFilter | scripts/build.mjs:363-365 | the kept names are exactly those of regular files ending in `.md` in any case |
| Posts.StrLessOrder | scripts/build.mjs:366 | the name order is a strict weak order |
| Posts.MdNamesOrder | scripts/build.mjs:362-366 | the names processed are a sorted permutation of the Markdown file names |
| Posts.NoMarkdown | scripts/build.mjs:362-368 | without Markdown files there is nothing to build |
| Posts.Slug | scripts/build.mjs:376 | the slug drops a final `.md` in any case and keeps every other name |
| Posts.Record | scripts/build.mjs:384-392 | the record's title falls back to the slug and its date to empty |
| Posts.PostLessOrder | scripts/build.mjs:396-401 | the newest-first comparator is a strict weak order |
| Posts.ByDateOrder | scripts/build.mjs:396-401 | posts sort into a permutation with dated posts first, newest first, and undated last, keeping ties in file order |
| Posts.ReadsAll | scripts/build.mjs:374-379 | every file is read exactly when every name is readable, and each read gives that file's text |
| Posts.ReadsStop | scripts/build.mjs:379 | a failing read stops the loop |
| Builder.Build | scripts/build.mjs:348-408 | the method's loop and writes compute `BuildOf` |
| Builder.BuildPost | scripts/build.mjs:376-392 | one iteration writes the page at `posts/<slug>.html`, beside its Markdown source, and pushes the post's record |
| Builder.PushedPost | scripts/build.mjs:380-392 | proof step for `BuildPost`: the page built from the parsed fields, with their defaults, is `PageOf` of the file, and the pushed record is `PostOf` |
| Builder.PostDefaults | scripts/build.mjs:384-387 | a post without a header is titled by its slug, undated and untagged |
| Builder.NoDirectory | scripts/build.mjs:362 | when `posts/` cannot be read nothing is written and no posts result |
| Builder.NothingToBuild | scripts/build.mjs:368-370 | without Markdown files nothing is written and the post list is empty |
| Builder.ReadFailure | scripts/build.mjs:374-390 | when the k-th read fails, exactly the k earlier pages have been written and there is no index |
| Builder.BuildWrites | scripts/build.mjs:374-405 | every post's page is written in name order, then the index of all posts |
| Builder.BuildOrder | scripts/build.mjs:395-401 | the index lists a permutation of the records, newest first, undated last, ties in name order |
| Listing.PaddedShape | lib/commands/list.mjs:91-99 | `pad` appends spaces only, up to the requested visual width when the string is narrower |
| Listing.Pad | lib/commands/list.mjs:91-99 | the width-counting loop computes `Padded` |
| Listing.FitLenSpec | lib/commands/list.mjs:105-111 | the kept prefix is the longest one within the budget |
| Listing.TruncateKeeps | lib/commands/list.mjs:102-114 | text within `maxVisualWidth - 1` columns is returned whole |
| Listing.TruncateCuts | lib/commands/list.mjs:105-108 | wider text is cut at the longest fitting prefix and gets `…` |
| Listing.TruncateEllipsisCorner | lib/commands/list.mjs:102-114 | text one column wider than `maxVisualWidth - 1` can still come back whole when its last character is the one that does not fit (`"ab…"` at 4) |
| Listing.Truncate | lib/commands/list.mjs:102-114 | the loop computes `Truncated` |
| Listing.TitleColumn | lib/commands/list.mjs:79 | the title column always takes exactly 28 columns |
| Listing.ListAgreesWithBuild | lib/commands/list.mjs:40-49 | `list` builds the same record as `build` except for the reading time, and the same one when the body has no leading heading |
| Listing.ListPushed | lib/commands/list.mjs:42-49 | proof step for `ReadPost`: the object built from the parsed fields is `ListRecord` of the file |
| Listing.ReadPost | lib/commands/list.mjs:41-49 | one loop iteration computes that record |
| Listing.ReadPosts | lib/commands/list.mjs:40-50 | the loop succeeds exactly when every file can be read, and then yields each file's record in name order |
| Listing.RenderRow | lib/commands/list.mjs:77-84 | one row is number, title, date, time and tags, padded to their columns |
| Listing.RenderHeader | lib/commands/list.mjs:72 | the header line |
| Listing.RenderRows | lib/commands/list.mjs:76-85 | the row loop numbers the posts from 1 in order |
| Listing.List | lib/commands/list.mjs:16-88 | the command computes `ListOf` |
| Listing.ListMissingDir | lib/commands/list.mjs:20-26 | an unreadable `posts/` prints the warning |
| Listing.ListNothing | lib/commands/list.mjs:28-36 | no Markdown file prints the no-posts note |
| Listing.ListTable | lib/commands/list.mjs:38-85 | otherwise the table is the count line, the header, the rule and one row per post |
| Listing.ListOrder | lib/commands/list.mjs:52-58 | the rows are a permutation of the records, newest first, undated last, ties in name order |
| Listing.DateCellDash | lib/commands/list.mjs:80 | the date cell shows `—` exactly for an empty date (or a date that is `—`) and the short date otherwise |
| Listing.TagCellSplits | lib/commands/list.mjs:82 | the tag cell is empty exactly when there are no tags, and splits back to them |
| NewPost.Workspace.NewPost | lib/commands/new-post.mjs:16-63 | an existing file is left alone with exit code 1 and two error lines; otherwise exactly that file is added with the scaffold and three log lines |
| NewPost.TagsOptionClean | lib/commands/new-post.mjs:39-42 | the tags are trimmed, non-empty and comma-free |
| NewPost.BlankTagsOption | lib/commands/new-post.mjs:39-42 | a tag option of only commas and spaces gives no tags |
| NewPost.ContentShape | lib/commands/new-post.mjs:46-56 | the scaffold is a front-matter header followed by the heading |
| NewPost.ContentParses | lib/commands/new-post.mjs:46-56 | parsing the scaffold gives back its title, date and tags, and its body strips to nothing |
| NewPost.TagsStrRoundTrip | lib/commands/new-post.mjs:43 | the bracketed tag string parses back to the same tags |
| NewPost.NoTagsReadBack | lib/commands/new-post.mjs:43 | no tags are written as `[]`, which parses back as the tag `"[]"` |
| NewPost.OptionTagsReadBack | lib/commands/new-post.mjs:39-43 | any tag option reads back as its tags, or as `["[]"]` when there are none |
| NewPost.ScaffoldRoundTrip | lib/commands/new-post.mjs:36-56 | a new post read back by `build` has the given title and date, its tags, and an empty body once the heading is stripped |
| NewPost.TailStrips | lib/commands/new-post.mjs:52-55 | the heading tail strips to nothing |
| Uri.DecodeEncode | scripts/serve.mjs:30 | decoding undoes `encodeURIComponent` |
| Uri.Encode | i18n.js:30 | the encoding uses only unreserved characters and `%XX` escapes, and leaves unreserved text unchanged |
| Uri.DecodePlain | scripts/serve.mjs:30 | text without `%` decodes to itself |
| Uri.BadEscape | scripts/serve.mjs:30 | a `%` not followed by two hex digits fails to decode |
| SafePath.Backslashes | scripts/serve.mjs:33 | every backslash becomes `/` and nothing else changes |
| SafePath.ResolveOk | scripts/serve.mjs:32-33 | normalisation keeps only segments of the input and never leaves `..` after a name |
| SafePath.NormalizePosix | scripts/serve.mjs:32-33 | normalisation never gives the empty string |
| SafePath.StripUp | scripts/serve.mjs:34 | the result is a suffix that no longer starts with a `..` segment |
| SafePath.SafePathFromUrl | scripts/serve.mjs:29-38 | there is a result exactly when the URL decodes |
| SafePath.SanitizeConfined | scripts/serve.mjs:30-37 | the path does not start with `/` and has no `..` segment |
| SafePath.SafePathConfined | scripts/serve.mjs:29-38 | every path the function returns stays inside the root |
| SafePath.SanitizeQuery | scripts/serve.mjs:31 | a query or fragment does not change the path |
| SafePath.CleanedQuestion | scripts/serve.mjs:31 | the text after the first `?` is dropped |
| SafePath.CleanedHash | scripts/serve.mjs:31 | the text after the first `#` is dropped |
| SafePath.SanitizeEmpty | scripts/serve.mjs:32-36 | the empty path serves `index.html` |
| SafePath.SanitizeSlash | scripts/serve.mjs:36 | `/` serves `index.html` |
| SafePath.SanitizeDot | scripts/serve.mjs:36 | `.` serves `index.html` |
| SafePath.SanitizeRoot | scripts/serve.mjs:31-36 | the root with any query or fragment serves `index.html` |
| SafePath.SanitizePlain | scripts/serve.mjs:32-37 | a plain absolute path only loses its leading slash |
| SafePath.SanitizeClimb | scripts/serve.mjs:32-34 | leading `../` segments are removed and the rest is kept |
| SafePath.EscapedQueryCuts | scripts/serve.mjs:30-31 | an escaped `%3F` cuts the path like a literal `?` |
| Server.Lookup | scripts/serve.mjs:9-25 | `Map.get` finds the entry with that key, and nothing exactly when no entry has it |
| Server.MimeOf | scripts/serve.mjs:9-25 | the type is that of the extension's entry, or `application/octet-stream` when there is none |
| Server.Extname | scripts/serve.mjs:76 | the extension is empty or a dot-led suffix of the base name with no further dot |
| Server.ExtnameOf | scripts/serve.mjs:76 | a name `stem.x` has the extension `.x` |
| Server.Respond | scripts/serve.mjs:49-85 | every answer is 200, 403, 404 or 500 |
| Server.RespondDecision | scripts/serve.mjs:51-84 | 500 when the URL does not decode; 404 exactly for a missing path or a file asked for with a trailing `/`; 403 exactly for a directory without an `index.html` file; a readable file is served with its MIME type; a directory's index as HTML |
| Server.FileWithSlashNotFound | scripts/serve.mjs:53-60 | an existing file asked for as `/name/` is answered 404, as `fs.stat` of a file path with a trailing `/` fails |
| SafePath.SanitizeTrailing | scripts/serve.mjs:29-38 | a plain name asked for with a trailing `/` keeps that `/` after sanitising |
| Server.MalformedIsError | scripts/serve.mjs:30-84 | a malformed escape in the URL is answered with 500 |
| Server.KeyConfined | scripts/serve.mjs:53-63 | the joined path and its `index.html` stay inside the root |
| Server.RespondStaysInside | scripts/serve.mjs:49-85 | the answer depends only on files inside the root |
| Server.HtmlName | scripts/serve.mjs:76-77 | a post page is served as HTML |
| Server.PostLinkSafe | scripts/serve.mjs:29-38 | the link the index page gives a post resolves to that post's page |
| Server.RespondFile | scripts/serve.mjs:76-80 | a readable file is answered 200 with its content |
| Server.ServesPostLink | scripts/serve.mjs:49-80 | following a post link from the index page serves that post's HTML |
| Rebuild.Apply | scripts/serve.mjs:144-165 | each change or finished build keeps the latch consistent: pending only while building, at most one build running |
| Rebuild.RunConsistent | scripts/serve.mjs:141-166 | any sequence of events keeps it consistent |
| Rebuild.NeverOverlap | scripts/serve.mjs:141-166 | builds never overlap: started minus finished is 0 or 1 |
| Rebuild.ChangesWhileBuilding | scripts/serve.mjs:145-148 | changes during a build only set `pendingBuild` |
| Rebuild.OneFollowUp | scripts/serve.mjs:161-165 | however many changes came during a build, exactly one follow-up build runs |
| Rebuild.FailureReleases | scripts/serve.mjs:154-161 | a failed build also releases the latch, so the next change builds |
| Rebuild.IdleChangeStarts | scripts/serve.mjs:149-152 | a change while idle starts a build and logs the path |
| Rebuild.Rebuilder.OnChange | scripts/serve.mjs:144-152 | the handler updates the fields as `Apply` does and starts a build exactly when idle |
| Rebuild.Rebuilder.OnBuildDone | scripts/serve.mjs:154-165 | finishing updates the fields as `Apply` does and follows up exactly when a change was pending |
| I18n.CodeUnits | i18n.js:15-16 | `charCodeAt` sees one UTF-16 unit per BMP character and two otherwise |
| I18n.UnitsOfBmp | i18n.js:15-16 | for BMP text the units are the characters' codes |
| I18n.HashFromAppend | i18n.js:15-16 | the FNV-1a fold over a concatenation continues from the first part's hash |
| I18n.ToBase36 | i18n.js:17 | base-36 digits without a leading zero |
| I18n.Base36RoundTrip | i18n.js:17 | the base-36 digits read back as the number |
| I18n.FnvOf | i18n.js:14-18 | the key is 1 to 7 base-36 digits whose value is the 32-bit FNV-1a hash of the UTF-16 units |
| I18n.Fnv | i18n.js:14-18 | the loop with `Math.imul` computes `FnvOf` |
| I18n.CacheKey | i18n.js:23 | the cache key is the prefix and 1 to 7 hash digits |
| I18n.CacheKeyNotLang | i18n.js:5-23 | no cache key collides with the language key |
| I18n.LookupOf | i18n.js:21-25 | blank text is returned as is; a stored non-empty translation is a hit; anything else is a miss on that key |
| I18n.BlankIgnoresCache | i18n.js:22 | blank text never consults the cache |
| I18n.StoredIsHit | i18n.js:24-37 | a stored non-empty translation is found next time |
| I18n.EmptyStoredIsMiss | i18n.js:25-37 | a stored empty translation is fetched again |
| I18n.RequestUrl | i18n.js:29-30 | the request URL starts with the endpoint and the language parameters |
| I18n.RequestCarriesText | i18n.js:29-30 | the `q` parameter has no `&` and decodes to the text |
| I18n.Page.Translate | i18n.js:21-40 | the method answers blank text, cache hits, failed fetches and fetched replies as `LookupOf` says, and stores a fetched reply under its key |
| I18n.CollectReply | i18n.js:35-36 | the reply's pieces are concatenated in order |
| I18n.ToggleTwice | i18n.js:154-158 | two clicks return to `zh`, or reach `en` from any other language; the label names the other language |
| I18n.Page.Click | i18n.js:153-158 | a click stores and shows the next language and keeps the saved texts |
| I18n.SaveFirst | i18n.js:44 | only the first text saved under an id is kept |
| I18n.SaveAllFirstWins | i18n.js:43-44 | after any sequence of saves each id holds its first text |
| I18n.FirstSavedSnoc | i18n.js:44 | a later save never changes an id's first text |
| I18n.RestoreAfterTwoSwitches | i18n.js:43-45 | after switching to English twice the original Chinese text comes back |
| I18n.Page.SaveOrig | i18n.js:44 | saving changes only the saved texts, keeping the first one |
| I18n.Page.RestoreOrig | i18n.js:45 | restoring gives `Restored` |
| I18n.FirstNumber | i18n.js:98 | `match(/(\d+)/)` is nothing exactly when there is no digit, and otherwise a run of digits |
| I18n.FirstNumberOf | i18n.js:98 | the run is the first number in the text |
| I18n.ReadingInEnglish | i18n.js:98-99 | the reading-time label of n minutes reads `n min read` |
| I18n.StatusInEnglish | i18n.js:113 | a status line with n reads `Showing all · n articles` |
| I18n.DateMatch | i18n.js:107 | a date match has a 4-digit year and 1–2 digit month and day |
| I18n.DateMatchComplete | i18n.js:107 | any spacing around `年`, `月` and `日` matches |
| I18n.FindDate | i18n.js:107 | the leftmost date found has those shapes |
| I18n.FirstSomeLeftmost | i18n.js:107 | the search returns the leftmost match |
| I18n.DateRewriteOfFormat | i18n.js:103-108 | the page date `formatDate` writes becomes `Mon D, YYYY` |
| I18n.DateInEnglish | i18n.js:103-108 | for months 1..12 the English name is taken from `MONTHS` |
| I18n.DateMonthOutOfRange | i18n.js:103-108 | any other month prints `undefined` |

## Left out

- Reading and writing files, `mkdir`, `stat`, `readdir`: listings and file contents are parameters, and writes are returned as a sequence of (path, page) pairs.
- The Markdown renderer (the `unified` pipeline with remark-parse, remark-gfm, remark-math, remark-rehype, rehype-katex and rehype-stringify): an arbitrary function parameter.
- The KaTeX asset copy in `build`, the duration in `build`'s result, and all console colouring: not part of the computed output.
- The HTTP server, `listen`, the watcher, `openBrowser` and all `async` scheduling: the handler is a function of the URL and the file tree, and the rebuild latch is a sequence of events.
- Symbolic links and the real path join: served files are keys relative to the root.
- NewPost.Workspace.NewPost: the file is keyed by the raw name `title + ".md"`, so a title holding `/` is not modelled as `path.join` treats it: `a/../b` is normalised to `b`, `../x` writes outside `posts/`, and `a/b` fails with `ENOENT` when `posts/a` is missing. The model covers titles without `/`, where the key is the file's name inside `posts/`.
- `list --json` (lib/commands/list.mjs:60-64): JSON serialisation is outside the model.
- `todayStr`'s clock: the date is the parameter `today`, and `TodayString` models its format.
- In i18n.js: `fetch`, `AbortController`, the 8-second timeout and `Promise.all` are outside the model. The reply is a parameter, and a failed fetch is `None`.
- Also in i18n.js: the DOM work is left out. This covers `collectBlocks`, the element lookups of `toEnglish`/`toChinese`, the `Home` back-link text, the `archiveH`/`sidebarT` saves and the loading class. `init`'s early return without a button is also left out.
- Characters are Unicode scalar values. UTF-16 code units appear only where the source depends on them (the FNV-1a hash). `truncate`'s `str.slice(0, i)` is modelled as a prefix of whole characters, which is what `i += ch.length` keeps.
- Posts.StrLessOrder: `localeCompare(…, "zh-Hans-CN")` is modelled as code-point order. The collation tables are outside the model, so the proved order is the code-point order, not the locale's.
- ReadingTime.Minutes: `Math.round` is modelled on integers as `(2·cjk + 3·words + 300) / 600`, which rounds the exact rational value cjk/300 + words/200 half up. Floating-point error in `cjk / 300 + words / 200` is not modelled.

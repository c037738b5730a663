/** The deterministic parts of i18n.js, the page script that switches a page
    between Chinese and English: the FNV-1a hash behind the translation
    cache keys, the cache decisions of `translate`, the first-wins map of
    original texts, the rewrites of the reading time, the date and the
    archive status, and the language toggle. */
module I18n {
  import opened Text
  import opened Dates
  import Uri
  import Templates

  // ------------------------------------------------------------------ fnv

  /** The UTF-16 code units of one character: itself below 0x10000,
      otherwise its surrogate pair. */
  function CodeUnits(c: char): (u: seq<int>)
    ensures 1 <= |u| <= 2
    ensures forall k :: 0 <= k < |u| ==> 0 <= u[k] < 0x1_0000
    ensures |u| == 1 <==> c as int < 0x1_0000
  {
    var v := c as int;
    if v < 0x1_0000 then [v]
    else [0xD800 + (v - 0x1_0000) / 0x400, 0xDC00 + (v - 0x1_0000) % 0x400]
  }

  /** The code units of a string, what `s.charCodeAt(i)` reads for
      `0 <= i < s.length`. */
  function Units(s: string): (u: seq<int>)
    ensures |u| >= |s|
    ensures forall k :: 0 <= k < |u| ==> 0 <= u[k] < 0x1_0000
  {
    if s == [] then [] else Units(s[..|s| - 1]) + CodeUnits(s[|s| - 1])
  }

  lemma {:induction false} UnitsAppend(a: string, b: string)
    ensures Units(a + b) == Units(a) + Units(b)
    decreases |b|
  {
    if b == [] {
      assert a + b == a;
    } else {
      var b' := b[..|b| - 1];
      assert (a + b)[..|a + b| - 1] == a + b';
      assert (a + b)[|a + b| - 1] == b[|b| - 1];
      UnitsAppend(a, b');
    }
  }

  /** A string of characters below 0x10000 has one code unit per
      character, the character's own code. */
  lemma {:induction false} UnitsOfBmp(s: string)
    requires forall k :: 0 <= k < |s| ==> s[k] as int < 0x1_0000
    ensures |Units(s)| == |s|
    ensures forall k :: 0 <= k < |s| ==> Units(s)[k] == s[k] as int
  {
    if s != [] {
      UnitsOfBmp(s[..|s| - 1]);
    }
  }

  const OffsetBasis: bv32 := 0x811c9dc5
  const Prime: bv32 := 0x01000193

  /** One round: `Math.imul(h ^ c, 0x01000193)`, kept as 32 bits. */
  function Round(h: bv32, c: int): bv32
    requires 0 <= c < 0x1_0000
  {
    (h ^ (c as bv32)) * Prime
  }

  /** The accumulator after the rounds for `u`, started at `h`. */
  function HashFrom(h: bv32, u: seq<int>): bv32
    requires forall k :: 0 <= k < |u| ==> 0 <= u[k] < 0x1_0000
  {
    if u == [] then h else Round(HashFrom(h, u[..|u| - 1]), u[|u| - 1])
  }

  /** The hash can be computed piece by piece: hashing `u + v` is hashing
      `v` from where hashing `u` stopped. */
  lemma {:induction false} HashFromAppend(h: bv32, u: seq<int>, v: seq<int>)
    requires forall k :: 0 <= k < |u| ==> 0 <= u[k] < 0x1_0000
    requires forall k :: 0 <= k < |v| ==> 0 <= v[k] < 0x1_0000
    ensures HashFrom(h, u + v) == HashFrom(HashFrom(h, u), v)
    decreases |v|
  {
    if v == [] {
      assert u + v == u;
    } else {
      var v' := v[..|v| - 1];
      assert (u + v)[..|u + v| - 1] == u + v';
      assert (u + v)[|u + v| - 1] == v[|v| - 1];
      HashFromAppend(h, u, v');
    }
  }

  /** The base-36 digit of a value below 36. */
  function Digit36(v: nat): (c: char)
    requires v < 36
    ensures IsBase36(c)
  {
    if v < 10 then (v + '0' as int) as char else (v - 10 + 'a' as int) as char
  }

  predicate IsBase36(c: char) {
    '0' <= c <= '9' || 'a' <= c <= 'z'
  }

  function Value36(c: char): (v: nat)
    requires IsBase36(c)
    ensures v < 36
  {
    if c <= '9' then c as int - '0' as int else c as int - 'a' as int + 10
  }

  /** `n.toString(36)`: base 36, lower-case letters, no leading zero. */
  function ToBase36(n: nat): (r: string)
    ensures |r| >= 1 && forall k :: 0 <= k < |r| ==> IsBase36(r[k])
    ensures |r| > 1 ==> r[0] != '0'
  {
    if n < 36 then [Digit36(n)]
    else
      var p := ToBase36(n / 36);
      assert (p + [Digit36(n % 36)])[0] == p[0];
      p + [Digit36(n % 36)]
  }

  /** The number a base-36 string stands for. */
  function Base36Value(s: string): nat
    requires forall k :: 0 <= k < |s| ==> IsBase36(s[k])
  {
    if s == [] then 0 else Base36Value(s[..|s| - 1]) * 36 + Value36(s[|s| - 1])
  }

  /** Reading the base-36 form back gives the number. */
  lemma {:induction false} Base36RoundTrip(n: nat)
    ensures Base36Value(ToBase36(n)) == n
  {
    if n >= 36 {
      var r := ToBase36(n);
      assert r[..|r| - 1] == ToBase36(n / 36);
      Base36RoundTrip(n / 36);
    }
  }

  function Pow36(k: nat): nat {
    if k == 0 then 1 else 36 * Pow36(k - 1)
  }

  /** A number below 36^k has at most `k` base-36 digits. */
  lemma {:induction false} Base36Short(n: nat, k: nat)
    requires k >= 1 && n < Pow36(k)
    ensures |ToBase36(n)| <= k
  {
    if n >= 36 {
      Base36Short(n / 36, k - 1);
    }
  }

  /** `fnv(s)` as a value. */
  function FnvOf(s: string): (r: string)
    ensures 1 <= |r| <= 7 && forall k :: 0 <= k < |r| ==> IsBase36(r[k])
    ensures Base36Value(r) == HashFrom(OffsetBasis, Units(s)) as int
  {
    var h := HashFrom(OffsetBasis, Units(s));
    Base36Short(h as int, 7);
    Base36RoundTrip(h as int);
    ToBase36(h as int)
  }

  /** The loop of `fnv` over the code units, then `(h >>> 0).toString(36)`. */
  method Fnv(s: string) returns (r: string)
    ensures r == FnvOf(s)
  {
    var u := Units(s);
    var h := OffsetBasis;
    var i := 0;
    while i < |u|
      invariant 0 <= i <= |u|
      invariant h == HashFrom(OffsetBasis, u[..i])
    {
      assert u[..i + 1][..i] == u[..i];
      h := Round(h, u[i]);
      i := i + 1;
    }
    assert u[..|u|] == u;
    r := ToBase36(h as int);
  }

  // ------------------------------------------------------------ translate

  const CachePrefix := "venblog-t-"
  const StorageKey := "venblog-lang"

  /** The cache key of a text and its language pair. */
  function CacheKey(text: string, sl: string, tl: string): (key: string)
    ensures 11 <= |key| <= 17
    ensures key[..|CachePrefix|] == CachePrefix
  {
    CachePrefix + FnvOf(sl + tl + text)
  }

  /** A cache key is never the key of the stored language. */
  lemma CacheKeyNotLang(text: string, sl: string, tl: string)
    ensures CacheKey(text, sl, tl) != StorageKey
  {
    var key := CacheKey(text, sl, tl);
    assert key[8] == CachePrefix[8] == 't';
    assert StorageKey[8] == 'l';
  }

  /** What `translate` does before any request. */
  datatype Lookup = Blank | Hit(value: string) | Miss(key: string)

  /** Whitespace-only text needs no translation; a stored non-empty text is
      a hit; anything else is a miss under the text's cache key. */
  function LookupOf(storage: map<string, string>, text: string, sl: string, tl: string): (r: Lookup)
    ensures r.Blank? <==> AllSpace(text)
    ensures r.Hit? <==> !AllSpace(text) && CacheKey(text, sl, tl) in storage
                        && storage[CacheKey(text, sl, tl)] != ""
    ensures r.Hit? ==> r.value == storage[CacheKey(text, sl, tl)]
    ensures r.Miss? ==> r.key == CacheKey(text, sl, tl)
  {
    TrimEmptyIffAllSpace(text);
    if Trim(text) == "" then Blank
    else
      var key := CacheKey(text, sl, tl);
      if key in storage && storage[key] != "" then Hit(storage[key]) else Miss(key)
  }

  /** Whitespace-only text never depends on the cache. */
  lemma BlankIgnoresCache(s1: map<string, string>, s2: map<string, string>,
                          text: string, sl: string, tl: string)
    requires AllSpace(text)
    ensures LookupOf(s1, text, sl, tl) == LookupOf(s2, text, sl, tl) == Blank
  {
  }

  /** A non-empty translation, once stored, is what the next lookup of the
      same text returns. */
  lemma StoredIsHit(storage: map<string, string>, text: string, sl: string, tl: string, out: string)
    requires !AllSpace(text) && out != ""
    ensures LookupOf(storage[CacheKey(text, sl, tl) := out], text, sl, tl) == Hit(out)
  {
  }

  /** An empty translation is stored too, but is not a hit: the next lookup
      requests it again. */
  lemma EmptyStoredIsMiss(storage: map<string, string>, text: string, sl: string, tl: string)
    requires !AllSpace(text)
    ensures LookupOf(storage[CacheKey(text, sl, tl) := ""], text, sl, tl)
         == Miss(CacheKey(text, sl, tl))
  {
  }

  const Api := "https://translate.googleapis.com/translate_a/single"

  /** The part of the request URL before the encoded text. */
  function RequestPrefix(sl: string, tl: string): string {
    Api + "?client=gtx&sl=" + sl + "&tl=" + tl + "&dt=t&q="
  }

  /** The request URL; the text goes last, through `encodeURIComponent`. */
  function RequestUrl(text: string, sl: string, tl: string): (url: string)
    ensures |RequestPrefix(sl, tl)| <= |url|
    ensures url[..|RequestPrefix(sl, tl)|] == RequestPrefix(sl, tl)
  {
    RequestPrefix(sl, tl) + Uri.Encode(text)
  }

  /** The `q` parameter decodes back to the text, and holds no `&` that
      could end it early. */
  lemma RequestCarriesText(text: string, sl: string, tl: string)
    ensures var q := RequestUrl(text, sl, tl)[|RequestPrefix(sl, tl)|..];
      && '&' !in q && Uri.Decode(q) == Some(text)
  {
    var q := Uri.Encode(text);
    assert RequestUrl(text, sl, tl)[|RequestPrefix(sl, tl)|..] == q;
    Uri.DecodeEncode(text);
    forall k | 0 <= k < |q| ensures q[k] != '&' {
      assert Uri.IsUnreserved(q[k]) || q[k] == '%' || Uri.HexValue(q[k]).Some?;
    }
  }

  // ------------------------------------------------------------- page state

  /** The language a stored value selects: `getItem(KEY) || "zh"`. */
  function GetLang(stored: Option<string>): (lang: string)
    ensures lang != ""
    ensures stored.Some? && stored.value != "" ==> lang == stored.value
    ensures stored.None? || stored.value == "" ==> lang == "zh"
  {
    if stored.Some? && stored.value != "" then stored.value else "zh"
  }

  /** The language a click switches to. */
  function NextLang(cur: string): (next: string)
    ensures next == "en" <==> cur == "zh"
    ensures next == "zh" <==> cur != "zh"
  {
    if cur == "zh" then "en" else "zh"
  }

  /** The button's text names the other language. */
  function Label(lang: string): (text: string)
    ensures text == "En" <==> lang == "zh"
    ensures text == "中" <==> lang != "zh"
  {
    if lang == "zh" then "En" else "中"
  }

  /** Two clicks come back to Chinese from Chinese and to English from any
      other language; the button always offers the language one click away. */
  lemma ToggleTwice(cur: string)
    ensures NextLang(NextLang(cur)) == if cur == "zh" then "zh" else "en"
    ensures Label(cur) == "En" <==> NextLang(cur) == "en"
  {
  }

  function StoredLang(storage: map<string, string>): Option<string> {
    if StorageKey in storage then Some(storage[StorageKey]) else None
  }

  /** Recording a text for `id` keeps the one already recorded. */
  function SaveFirst(orig: map<string, string>, id: string, text: string): (r: map<string, string>)
    ensures r.Keys == orig.Keys + {id}
    ensures forall k :: k in orig ==> r[k] == orig[k]
    ensures id !in orig ==> r[id] == text
  {
    if id in orig then orig else orig[id := text]
  }

  /** The map after recording each `(id, text)` in order. */
  function SaveAll(orig: map<string, string>, saves: seq<(string, string)>): map<string, string> {
    if saves == [] then orig
    else SaveFirst(SaveAll(orig, saves[..|saves| - 1]), saves[|saves| - 1].0, saves[|saves| - 1].1)
  }

  /** The text of the first save for `id`, if any. */
  function FirstSaved(saves: seq<(string, string)>, id: string): Option<string> {
    if saves == [] then None
    else if saves[0].0 == id then Some(saves[0].1)
    else FirstSaved(saves[1..], id)
  }

  /** Whatever is recorded later, an id keeps its first text: the one
      recorded before the saves, otherwise the first text saved for it. */
  lemma {:induction false} SaveAllFirstWins(orig: map<string, string>, saves: seq<(string, string)>, id: string)
    ensures id in orig ==> id in SaveAll(orig, saves) && SaveAll(orig, saves)[id] == orig[id]
    ensures id !in orig && FirstSaved(saves, id).Some? ==>
      id in SaveAll(orig, saves) && SaveAll(orig, saves)[id] == FirstSaved(saves, id).value
    ensures id !in orig && FirstSaved(saves, id).None? ==> id !in SaveAll(orig, saves)
    decreases |saves|
  {
    if saves != [] {
      var init := saves[..|saves| - 1];
      var last := saves[|saves| - 1];
      assert saves == init + [last];
      SaveAllFirstWins(orig, init, id);
      FirstSavedSnoc(init, last, id);
    }
  }

  lemma {:induction false} FirstSavedSnoc(saves: seq<(string, string)>, last: (string, string), id: string)
    ensures FirstSaved(saves + [last], id)
         == if FirstSaved(saves, id).Some? then FirstSaved(saves, id)
            else if last.0 == id then Some(last.1) else None
  {
    if saves != [] {
      assert (saves + [last])[1..] == saves[1..] + [last];
      FirstSavedSnoc(saves[1..], last, id);
    } else {
      assert [last][1..] == [];
    }
  }

  /** `restoreOrig`: the recorded text when there is one, else the current. */
  function Restored(orig: map<string, string>, id: string, current: string): (r: string)
    ensures id in orig ==> r == orig[id]
    ensures id !in orig ==> r == current
  {
    if id in orig then orig[id] else current
  }

  /** Switching to English twice and back: the element shows its original
      Chinese text, not the English saved by the second switch. */
  lemma RestoreAfterTwoSwitches(id: string, zh: string, en: string)
    ensures Restored(SaveAll(map[], [(id, zh), (id, en)]), id, en) == zh
  {
    SaveAllFirstWins(map[], [(id, zh), (id, en)], id);
  }

  /** The page: the browser's `localStorage`, the `origMap` of the script,
      the `data-lang` attribute and the toggle button's text. */
  class Page {
    var storage: map<string, string>
    var orig: map<string, string>
    var dataLang: string
    var buttonText: string

    /** The attribute and the button agree with the stored language. */
    predicate Shown()
      reads this
    {
      dataLang == GetLang(StoredLang(storage)) && buttonText == Label(dataLang)
    }

    /** Loading the page and `init`: read the language, label the button. */
    constructor(storage0: map<string, string>)
      ensures storage == storage0 && orig == map[]
      ensures dataLang == GetLang(StoredLang(storage0))
      ensures Shown()
    {
      storage := storage0;
      orig := map[];
      var lang := GetLang(StoredLang(storage0));
      buttonText := if lang == "zh" then "En" else "中";
      dataLang := lang;
    }

    /** The click handler: store, show and offer the other language. */
    method Click()
      modifies this
      ensures dataLang == NextLang(GetLang(StoredLang(old(storage))))
      ensures storage == old(storage)[StorageKey := dataLang]
      ensures orig == old(orig)
      ensures Shown()
    {
      var cur := GetLang(StoredLang(storage));
      var next := if cur == "zh" then "en" else "zh";
      storage := storage[StorageKey := next];
      dataLang := next;
      buttonText := if next == "zh" then "En" else "中";
    }

    /** `saveOrig(el, id)` with `text` the element's current text. */
    method SaveOrig(id: string, text: string)
      modifies this
      ensures orig == SaveFirst(old(orig), id, text)
      ensures storage == old(storage) && dataLang == old(dataLang) && buttonText == old(buttonText)
    {
      if id !in orig {
        orig := orig[id := text];
      }
    }

    /** `restoreOrig(el, id)`: the element's text afterwards. */
    method RestoreOrig(id: string, current: string) returns (text: string)
      ensures text == Restored(orig, id, current)
    {
      text := current;
      if id in orig {
        text := orig[id];
      }
    }

    /** `translate(text, sl, tl)`. A request is answered by `reply`: `None`
        when it fails (the promise rejects), otherwise the first element of
        each piece of the response, empty when it has none; `storable` is
        whether `localStorage.setItem` succeeds. The result is `None` when
        the promise rejects. */
    method Translate(text: string, sl: string, tl: string, reply: Option<seq<string>>, storable: bool)
      returns (r: Option<string>)
      modifies this
      ensures var l := LookupOf(old(storage), text, sl, tl);
        && (l.Blank? ==> r == Some(text) && storage == old(storage))
        && (l.Hit? ==> r == Some(l.value) && storage == old(storage))
        && (l.Miss? && reply.None? ==> r.None? && storage == old(storage))
        && (l.Miss? && reply.Some? ==>
              r == Some(Join(reply.value, ""))
              && storage == if storable then old(storage)[l.key := Join(reply.value, "")] else old(storage))
      ensures orig == old(orig) && dataLang == old(dataLang) && buttonText == old(buttonText)
      ensures old(Shown()) ==> Shown()
    {
      TrimEmptyIffAllSpace(text);
      if Trim(text) == "" {
        return Some(text);
      }
      var h := Fnv(sl + tl + text);
      var key := CachePrefix + h;
      CacheKeyNotLang(text, sl, tl);
      if key in storage && storage[key] != "" {
        return Some(storage[key]);
      }
      if reply.None? {
        return None;
      }
      var out := CollectReply(reply.value);
      if storable {
        storage := storage[key := out];
      }
      r := Some(out);
    }
  }

  /** The `forEach` over the response: the first elements of its pieces, in
      order, one after another. */
  method CollectReply(pieces: seq<string>) returns (out: string)
    ensures out == Join(pieces, "")
  {
    out := "";
    var i := 0;
    while i < |pieces|
      invariant 0 <= i <= |pieces|
      invariant out == Join(pieces[..i], "")
    {
      if i == 0 {
        assert pieces[..1] == [pieces[0]];
      } else {
        JoinAppend(pieces[..i], pieces[i], "");
        assert pieces[..i + 1] == pieces[..i] + [pieces[i]];
      }
      out := out + pieces[i];
      i := i + 1;
    }
    assert pieces[..|pieces|] == pieces;
  }

  // ------------------------------------------------------------ the rewrites

  /** How many digits `s` starts with. */
  function LeadingDigits(s: string): (k: nat)
    ensures k <= |s|
    ensures forall j :: 0 <= j < k ==> IsDigit(s[j])
    ensures k == |s| || !IsDigit(s[k])
  {
    if s != [] && IsDigit(s[0]) then 1 + LeadingDigits(s[1..]) else 0
  }

  /** The index of the first digit of `s`, or `|s|`. */
  function FirstDigit(s: string): (i: nat)
    ensures i <= |s|
    ensures forall j :: 0 <= j < i ==> !IsDigit(s[j])
    ensures i < |s| ==> IsDigit(s[i])
  {
    if s == [] then 0 else if IsDigit(s[0]) then 0 else 1 + FirstDigit(s[1..])
  }

  /** The first group of `s.match(/(\d+)/)`: the leftmost run of digits,
      taken whole. */
  function FirstNumber(s: string): (r: Option<string>)
    ensures r.None? <==> forall j :: 0 <= j < |s| ==> !IsDigit(s[j])
    ensures r.Some? ==> r.value != [] && AllDigits(r.value)
  {
    var i := FirstDigit(s);
    if i == |s| then None else Some(s[i..i + LeadingDigits(s[i..])])
  }

  /** A number written after digit-free text and before a non-digit is the
      first number. */
  lemma FirstNumberOf(p: string, n: nat, q: string)
    requires forall j :: 0 <= j < |p| ==> !IsDigit(p[j])
    requires q == [] || !IsDigit(q[0])
    ensures FirstNumber(p + NatToString(n) + q) == Some(NatToString(n))
  {
    var d := NatToString(n);
    var s := p + d + q;
    FirstDigitAfter(p, d + q);
    assert s == p + (d + q);
    assert s[|p|..] == d + q;
    LeadingDigitsOf(d, q);
    assert s[|p|..|p| + |d|] == d;
  }

  lemma {:induction false} FirstDigitAfter(p: string, t: string)
    requires forall j :: 0 <= j < |p| ==> !IsDigit(p[j])
    requires t != [] && IsDigit(t[0])
    ensures FirstDigit(p + t) == |p|
  {
    if p != [] {
      assert (p + t)[1..] == p[1..] + t;
      FirstDigitAfter(p[1..], t);
    }
  }

  const MinRead := " min read"

  /** The reading-time text in English: its first number and ` min read`;
      unchanged when it has no digit. */
  function ReadingRewrite(text: string): string {
    match FirstNumber(text)
    case None => text
    case Some(n) => n + MinRead
  }

  /** The reading time a post page shows reads `N min read` in English. */
  lemma ReadingInEnglish(n: nat)
    ensures ReadingRewrite(Templates.ReadingText(n)) == NatToString(n) + MinRead
  {
    var q := " 分钟阅读";
    assert Templates.ReadingText(n) == "" + NatToString(n) + q;
    FirstNumberOf("", n, q);
  }

  const ShowingAll := "Showing all · "
  const Articles := " articles"

  /** The archive status text in English: `Showing all · N articles` with
      its first number; unchanged when it has no digit. */
  function StatusRewrite(text: string): string {
    match FirstNumber(text)
    case None => text
    case Some(n) => ShowingAll + n + Articles
  }

  /** A status text holding one count, after digit-free words, reads
      `Showing all · N articles` in English. */
  lemma StatusInEnglish(p: string, n: nat, q: string)
    requires forall j :: 0 <= j < |p| ==> !IsDigit(p[j])
    requires q == [] || !IsDigit(q[0])
    ensures StatusRewrite(p + NatToString(n) + q) == ShowingAll + NatToString(n) + Articles
  {
    FirstNumberOf(p, n, q);
  }

  const Months: seq<string> :=
    ["Jan", "Feb", "Mar", "Apr", "May", "Jun", "Jul", "Aug", "Sep", "Oct", "Nov", "Dec"]

  /** `MONTHS[m - 1]` in a string: `undefined` outside 1..12. */
  function MonthName(m: nat): string {
    if 1 <= m <= 12 then Months[m - 1] else "undefined"
  }

  /** One group of the pattern at the start of `t`: a run of `lo` to `hi`
      digits, whitespace, then `sign`; the digits and what follows the sign.
      A run longer than `hi` leaves a digit where whitespace or the sign must
      follow, so the whole run must fit. */
  function Group(t: string, lo: nat, hi: nat, sign: char): (r: Option<(string, string)>)
    ensures r.Some? ==> lo <= |r.value.0| <= hi && AllDigits(r.value.0)
  {
    var k := LeadingDigits(t);
    var a := k + LeadingSpace(t[k..]);
    if lo <= k <= hi && a < |t| && t[a] == sign then Some((t[..k], t[a + 1..])) else None
  }

  /** `/(\d{4})\s*年\s*(\d{1,2})\s*月\s*(\d{1,2})\s*日/` tried at the start
      of `t`: the year, month and day groups. */
  function DateMatch(t: string): (r: Option<(string, string, string)>)
    ensures r.Some? ==> DateGroups(r.value)
  {
    match Group(t, 4, 4, '年')
    case None => None
    case Some((y, r1)) =>
      match Group(TrimStart(r1), 1, 2, '月')
      case None => None
      case Some((m, r2)) =>
        match Group(TrimStart(r2), 1, 2, '日')
        case None => None
        case Some((d, _)) => Some((y, m, d))
  }

  /** Four year digits, one or two month digits, one or two day digits. */
  predicate DateGroups(g: (string, string, string)) {
    |g.0| == 4 && AllDigits(g.0) && 1 <= |g.1| <= 2 && AllDigits(g.1) && 1 <= |g.2| <= 2 && AllDigits(g.2)
  }

  /** The pattern tried at position `i` of `s`. */
  function DateAt(s: string, i: nat): (r: Option<(string, string, string)>)
    ensures r.Some? ==> DateGroups(r.value)
  {
    if i <= |s| then DateMatch(s[i..]) else None
  }

  /** The result of `f` at the first of `i`, ..., `n - 1` where it has one:
      how a pattern without an anchor is tried at each position in turn. */
  function FirstSome<T>(f: nat -> Option<T>, i: nat, n: nat): Option<T>
    decreases n - i
  {
    if i >= n then None
    else if f(i).Some? then f(i)
    else FirstSome(f, i + 1, n)
  }

  /** What is found is the result at the leftmost position that has one;
      nothing is found only when no position has one. */
  lemma {:induction false} FirstSomeLeftmost<T>(f: nat -> Option<T>, i: nat, n: nat)
    ensures FirstSome(f, i, n).Some? ==>
      exists j :: i <= j < n && FirstSome(f, i, n) == f(j) && forall k :: i <= k < j ==> f(k).None?
    ensures FirstSome(f, i, n).None? ==> forall k :: i <= k < n ==> f(k).None?
    decreases n - i
  {
    if i < n && f(i).None? {
      FirstSomeLeftmost(f, i + 1, n);
    }
  }

  /** `text.match(...)`: the leftmost match. */
  function FindDate(s: string): (r: Option<(string, string, string)>)
    ensures r.Some? ==> DateGroups(r.value)
  {
    FirstSomeLeftmost(k => DateAt(s, k), 0, |s|);
    FirstSome(k => DateAt(s, k), 0, |s|)
  }

  /** The date text in English: `MONTHS[M - 1] D, Y` from the first match,
      the day without leading zeros; unchanged when nothing matches. */
  function DateRewrite(text: string): string {
    match FindDate(text)
    case None => text
    case Some((y, m, d)) => MonthName(DigitsValue(m)) + " " + NatToString(DigitsValue(d)) + ", " + y
  }

  /** Digits then a non-digit: the digits are the leading ones. */
  lemma {:induction false} LeadingDigitsOf(d: string, q: string)
    requires AllDigits(d)
    requires q == [] || !IsDigit(q[0])
    ensures LeadingDigits(d + q) == |d|
  {
    if d != [] {
      assert (d + q)[1..] == d[1..] + q;
      LeadingDigitsOf(d[1..], q);
    } else {
      assert d + q == q;
    }
  }

  /** Whitespace in front of a non-space is what `TrimStart` drops. */
  lemma TrimStartOver(w: string, t: string)
    requires AllSpace(w) && t != [] && !IsSpace(t[0])
    ensures TrimStart(w + t) == t
  {
    LeadingSpaceSkips(w, t);
    assert LeadingSpace(t) == 0;
    assert (w + t)[|w|..] == t;
  }

  /** Digits, whitespace and the sign make a group, followed by `rest`. */
  lemma GroupOf(lo: nat, hi: nat, x: string, w: string, sign: char, rest: string)
    requires AllDigits(x) && lo <= |x| <= hi && AllSpace(w) && !IsSpace(sign) && !IsDigit(sign)
    ensures Group(x + w + [sign] + rest, lo, hi, sign) == Some((x, rest))
  {
    var t := x + w + [sign] + rest;
    var u := w + [sign] + rest;
    assert t == x + u;
    assert u == [] || !IsDigit(u[0]) by {
      if w != [] {
        assert u[0] == w[0];
        assert IsSpace(w[0]);
      }
    }
    LeadingDigitsOf(x, u);
    assert t[|x|..] == u;
    LeadingSpaceSkips(w, [sign] + rest);
    assert LeadingSpace([sign] + rest) == 0;
    assert u == w + ([sign] + rest);
    assert t[|x| + |w|] == sign;
    assert t[..|x|] == x;
    assert t[|x| + |w| + 1..] == rest;
  }

  /** Every text of the pattern's shape matches, with its own year, month
      and day: `t` is `y w1 年 r1`, `r1` is `w2 m w3 月 r2` and `r2` is
      `w4 d w5 日 rest`. */
  lemma DateMatchComplete(t: string, y: string, w1: string, r1: string, w2: string,
                          m: string, w3: string, r2: string, w4: string,
                          d: string, w5: string, rest: string)
    requires |y| == 4 && AllDigits(y) && 1 <= |m| <= 2 && AllDigits(m) && 1 <= |d| <= 2 && AllDigits(d)
    requires AllSpace(w1) && AllSpace(w2) && AllSpace(w3) && AllSpace(w4) && AllSpace(w5)
    requires t == y + w1 + ['年'] + r1
    requires r1 == w2 + (m + w3 + ['月'] + r2)
    requires r2 == w4 + (d + w5 + ['日'] + rest)
    ensures DateMatch(t) == Some((y, m, d))
  {
    GroupOf(4, 4, y, w1, '年', r1);
    SpacedGroup(1, 2, w2, m, w3, '月', r2);
    SpacedGroup(1, 2, w4, d, w5, '日', rest);
    DateMatchOfGroups(t, y, r1, m, r2, d, rest);
  }

  /** The three groups in turn make the match. */
  lemma DateMatchOfGroups(t: string, y: string, r1: string, m: string, r2: string, d: string, rest: string)
    requires Group(t, 4, 4, '年') == Some((y, r1))
    requires Group(TrimStart(r1), 1, 2, '月') == Some((m, r2))
    requires Group(TrimStart(r2), 1, 2, '日') == Some((d, rest))
    ensures DateMatch(t) == Some((y, m, d))
  {
  }

  /** A group after whitespace, once `\s*` has dropped the whitespace. */
  lemma SpacedGroup(lo: nat, hi: nat, w: string, x: string, w': string, sign: char, rest: string)
    requires AllDigits(x) && lo <= |x| <= hi && 1 <= |x| && AllSpace(w) && AllSpace(w')
    requires !IsSpace(sign) && !IsDigit(sign)
    ensures Group(TrimStart(w + (x + w' + [sign] + rest)), lo, hi, sign) == Some((x, rest))
  {
    var t := x + w' + [sign] + rest;
    assert t[0] == x[0];
    assert IsDigit(t[0]);
    TrimStartOver(w, t);
    GroupOf(lo, hi, x, w', sign, rest);
  }

  /** The rewrite of a date `formatDate` wrote: the month's name, the day
      without leading zeros and the year. */
  lemma DateRewriteOfFormat(y: string, m: string, d: string)
    requires DateParts(y, m, d)
    ensures DateRewrite(FormatDate(y + "-" + m + "-" + d))
         == MonthName(DigitsValue(m)) + " " + NatToString(DigitsValue(d)) + ", " + y
  {
    MatchDateComplete(y, m, d);
    var mv, dv := DigitsValue(m), DigitsValue(d);
    var ms, ds := NatToString(mv), NatToString(dv);
    var s := FormatDate(y + "-" + m + "-" + d);
    assert s == y + " 年 " + ms + " 月 " + ds + " 日";
    DigitsBelow100(m);
    DigitsBelow100(d);
    NatToStringShort(mv);
    NatToStringShort(dv);
    NatToStringValue(mv);
    NatToStringValue(dv);
    FindDateOfShape(s, y, ms, ds);
  }

  /** The text `formatDate` writes is found at its start. */
  lemma FindDateOfShape(s: string, y: string, ms: string, ds: string)
    requires |y| == 4 && AllDigits(y) && 1 <= |ms| <= 2 && AllDigits(ms) && 1 <= |ds| <= 2 && AllDigits(ds)
    requires s == y + " 年 " + ms + " 月 " + ds + " 日"
    ensures FindDate(s) == Some((y, ms, ds))
  {
    var sp := " ";
    assert AllSpace(sp);
    var r2 := sp + (ds + sp + ['日'] + "");
    var r1 := sp + (ms + sp + ['月'] + r2);
    assert s == y + sp + ['年'] + r1;
    DateMatchComplete(s, y, sp, r1, sp, ms, sp, r2, sp, ds, sp, "");
    assert s[0..] == s;
    assert FindDate(s) == DateAt(s, 0);
  }

  /** The rewrite reverses `formatDate` for months 1 to 12: the date a
      post page shows as `Y 年 M 月 D 日` reads `Mon D, Y` in English. */
  lemma DateInEnglish(y: string, m: string, d: string)
    requires DateParts(y, m, d) && 1 <= DigitsValue(m) <= 12
    ensures DateRewrite(FormatDate(y + "-" + m + "-" + d))
         == Months[DigitsValue(m) - 1] + " " + NatToString(DigitsValue(d)) + ", " + y
  {
    DateRewriteOfFormat(y, m, d);
  }

  /** A month outside 1 to 12 reads `undefined`. */
  lemma DateMonthOutOfRange(y: string, m: string, d: string)
    requires DateParts(y, m, d) && !(1 <= DigitsValue(m) <= 12)
    ensures DateRewrite(FormatDate(y + "-" + m + "-" + d))
         == "undefined" + " " + NatToString(DigitsValue(d)) + ", " + y
  {
    DateRewriteOfFormat(y, m, d);
  }

  /** One or two digits are below 100. */
  lemma DigitsBelow100(d: string)
    requires AllDigits(d) && |d| <= 2
    ensures DigitsValue(d) < 100
  {
    if |d| == 2 {
      assert d[..1][..0] == [];
    }
  }
}

/** String primitives of the JavaScript runtime that the site builder relies on:
    whitespace as `trim()` and the regex class `\s` see it, `split` on one
    character, `join`, `indexOf`, `startsWith`, decimal digits and `padStart`,
    and the code-point order used in place of `localeCompare`. */
module Text {

  datatype Option<T> = None | Some(value: T)

  /** ECMAScript WhiteSpace and LineTerminator code points: exactly what
      `String.prototype.trim` removes and what the regex class `\s` matches. */
  predicate IsSpace(c: char) {
    || c == '\t' || c == '\n' || c == '\U{000B}' || c == '\U{000C}' || c == '\r' || c == ' '
    || c == '\U{00A0}' || c == '\U{1680}' || ('\U{2000}' <= c <= '\U{200A}')
    || c == '\U{2028}' || c == '\U{2029}' || c == '\U{202F}' || c == '\U{205F}'
    || c == '\U{3000}' || c == '\U{FEFF}'
  }

  /** The characters the regex `.` does not match (ECMAScript LineTerminator). */
  predicate IsLineTerminator(c: char) {
    c == '\n' || c == '\r' || c == '\U{2028}' || c == '\U{2029}'
  }

  predicate AllSpace(s: string) {
    forall i :: 0 <= i < |s| ==> IsSpace(s[i])
  }

  /** How many whitespace characters `s` starts with. */
  function LeadingSpace(s: string): (k: nat)
    ensures k <= |s|
    ensures forall j :: 0 <= j < k ==> IsSpace(s[j])
    ensures k == |s| || !IsSpace(s[k])
  {
    if s != [] && IsSpace(s[0]) then 1 + LeadingSpace(s[1..]) else 0
  }

  /** How long `s` is without the whitespace it ends with. */
  function KeptLength(s: string): (k: nat)
    ensures k <= |s|
    ensures forall j :: k <= j < |s| ==> IsSpace(s[j])
    ensures k == 0 || !IsSpace(s[k - 1])
  {
    if s != [] && IsSpace(s[|s| - 1]) then KeptLength(s[..|s| - 1]) else |s|
  }

  /** `String.prototype.trimStart`. */
  function TrimStart(s: string): string {
    s[LeadingSpace(s)..]
  }

  /** `String.prototype.trimEnd`. */
  function TrimEnd(s: string): string {
    s[..KeptLength(s)]
  }

  /** `String.prototype.trim`. */
  function Trim(s: string): string {
    TrimEnd(TrimStart(s))
  }

  /** A string that `trim` leaves as it is. */
  predicate IsTrimmed(s: string) {
    s == [] || (!IsSpace(s[0]) && !IsSpace(s[|s| - 1]))
  }

  lemma TrimOfTrimmed(s: string)
    requires IsTrimmed(s)
    ensures Trim(s) == s
  {
    assert LeadingSpace(s) == 0;
    assert TrimStart(s) == s;
  }

  lemma TrimIsTrimmed(s: string)
    ensures IsTrimmed(Trim(s))
  {
    var t := TrimStart(s);
    var r := TrimEnd(t);
    if r != [] {
      assert r[0] == t[0] == s[LeadingSpace(s)];
      assert r[|r| - 1] == t[KeptLength(t) - 1];
    }
  }

  /** Leading whitespace is counted as such. */
  lemma {:induction false} LeadingSpaceSkips(w: string, s: string)
    requires AllSpace(w)
    ensures LeadingSpace(w + s) == |w| + LeadingSpace(s)
  {
    if w != [] {
      assert (w + s)[1..] == w[1..] + s;
      assert (w + s)[0] == w[0];
      LeadingSpaceSkips(w[1..], s);
    } else {
      assert w + s == s;
    }
  }

  /** Leading whitespace does not change what `trim` returns. */
  lemma TrimSkipsLeadingSpace(w: string, s: string)
    requires AllSpace(w)
    ensures TrimStart(w + s) == TrimStart(s)
    ensures Trim(w + s) == Trim(s)
  {
    LeadingSpaceSkips(w, s);
    assert (w + s)[|w| + LeadingSpace(s)..] == s[LeadingSpace(s)..];
  }

  /** `s.trim() === ""` holds exactly for the all-whitespace strings. */
  lemma TrimEmptyIffAllSpace(s: string)
    ensures Trim(s) == [] <==> AllSpace(s)
  {
    var a := LeadingSpace(s);
    var t := TrimStart(s);
    if a < |s| {
      assert t[0] == s[a];
      assert KeptLength(t) > 0;
    }
  }

  predicate MatchAt(s: string, pat: string, k: int) {
    0 <= k && k + |pat| <= |s| && s[k..k + |pat|] == pat
  }

  predicate Contains(s: string, pat: string) {
    exists k :: 0 <= k <= |s| && MatchAt(s, pat, k)
  }

  lemma ContainsMiddle(a: string, t: string, b: string)
    ensures Contains(a + t + b, t)
  {
    assert (a + t + b)[|a|..|a| + |t|] == t;
    assert MatchAt(a + t + b, t, |a|);
  }

  lemma ContainsTransitive(s: string, t: string, u: string)
    requires Contains(s, t) && Contains(t, u)
    ensures Contains(s, u)
  {
    var k :| 0 <= k <= |s| && MatchAt(s, t, k);
    var j :| 0 <= j <= |t| && MatchAt(t, u, j);
    assert t == s[k..k + |t|];
    assert u == t[j..j + |u|];
    forall m | 0 <= m < |u| ensures s[k + j + m] == u[m] {
      assert u[m] == t[j + m] == s[k + j + m];
    }
    assert MatchAt(s, u, k + j);
  }

  /** `s.indexOf(pat, from)`, with -1 for "not found". */
  function IndexOfFrom(s: string, pat: string, from: nat): (k: int)
    ensures k == -1 || (from <= k && MatchAt(s, pat, k))
    ensures k == -1 ==> forall j :: from <= j ==> !MatchAt(s, pat, j)
    ensures k != -1 ==> forall j :: from <= j < k ==> !MatchAt(s, pat, j)
    decreases |s| - from
  {
    if from + |pat| > |s| then -1
    else if s[from..from + |pat|] == pat then from
    else IndexOfFrom(s, pat, from + 1)
  }

  /** The position of the first `c` in `s`. */
  function FirstIndex(s: string, c: char): (i: nat)
    requires c in s
    ensures i < |s| && s[i] == c && c !in s[..i]
  {
    if s[0] == c then 0
    else
      var i := 1 + FirstIndex(s[1..], c);
      assert s[..i] == [s[0]] + s[1..][..i - 1];
      i
  }

  /** `parts.join(sep)`. */
  function Join(parts: seq<string>, sep: string): string {
    if |parts| == 0 then ""
    else if |parts| == 1 then parts[0]
    else parts[0] + sep + Join(parts[1..], sep)
  }

  lemma JoinCons(p: string, rest: seq<string>, sep: string)
    requires rest != []
    ensures Join([p] + rest, sep) == p + sep + Join(rest, sep)
  {
    assert ([p] + rest)[1..] == rest;
  }

  lemma {:induction false} JoinAppend(parts: seq<string>, p: string, sep: string)
    requires parts != []
    ensures Join(parts + [p], sep) == Join(parts, sep) + sep + p
  {
    if |parts| == 1 {
      JoinCons(parts[0], [p], sep);
    } else {
      assert (parts + [p])[1..] == parts[1..] + [p];
      JoinAppend(parts[1..], p, sep);
    }
  }

  /** The join of a contiguous run of the parts occurs in the join of all of them. */
  lemma {:induction false} JoinContainsRun(parts: seq<string>, sep: string, i: nat, j: nat)
    requires i < j <= |parts|
    ensures Contains(Join(parts, sep), Join(parts[i..j], sep))
  {
    if i > 0 {
      JoinContainsRun(parts[1..], sep, i - 1, j - 1);
      assert parts[1..][i - 1..j - 1] == parts[i..j];
      ContainsMiddle(parts[0] + sep, Join(parts[1..], sep), "");
      assert parts[0] + sep + Join(parts[1..], sep) + "" == Join(parts, sep);
      ContainsTransitive(Join(parts, sep), Join(parts[1..], sep), Join(parts[i..j], sep));
    } else if j == |parts| {
      assert parts[i..j] == parts;
      ContainsMiddle("", Join(parts, sep), "");
      assert "" + Join(parts, sep) + "" == Join(parts, sep);
    } else {
      JoinContainsRun(parts[..|parts| - 1], sep, i, j);
      assert parts[..|parts| - 1][i..j] == parts[i..j];
      assert parts == parts[..|parts| - 1] + [parts[|parts| - 1]];
      JoinAppend(parts[..|parts| - 1], parts[|parts| - 1], sep);
      ContainsMiddle("", Join(parts[..|parts| - 1], sep), sep + parts[|parts| - 1]);
      assert "" + Join(parts[..|parts| - 1], sep) + (sep + parts[|parts| - 1]) == Join(parts, sep);
      ContainsTransitive(Join(parts, sep), Join(parts[..|parts| - 1], sep), Join(parts[i..j], sep));
    }
  }

  /** `xs.map(f).join("")`. */
  function ConcatMap<T>(xs: seq<T>, f: T -> string): string {
    if xs == [] then "" else f(xs[0]) + ConcatMap(xs[1..], f)
  }

  /** Mapping a sequence with one more element appends that element's image. */
  lemma {:induction false} ConcatMapSnoc<T>(xs: seq<T>, x: T, f: T -> string)
    ensures ConcatMap(xs + [x], f) == ConcatMap(xs, f) + f(x)
  {
    if xs == [] {
      assert [x][1..] == [];
    } else {
      assert (xs + [x])[1..] == xs[1..] + [x];
      ConcatMapSnoc(xs[1..], x, f);
    }
  }

  lemma {:induction false} ConcatMapContains<T>(xs: seq<T>, f: T -> string, i: nat)
    requires i < |xs|
    ensures Contains(ConcatMap(xs, f), f(xs[i]))
  {
    if i == 0 {
      ContainsMiddle("", f(xs[0]), ConcatMap(xs[1..], f));
      assert "" + f(xs[0]) + ConcatMap(xs[1..], f) == ConcatMap(xs, f);
    } else {
      ConcatMapContains(xs[1..], f, i - 1);
      ContainsMiddle(f(xs[0]), ConcatMap(xs[1..], f), "");
      assert f(xs[0]) + ConcatMap(xs[1..], f) + "" == ConcatMap(xs, f);
      ContainsTransitive(ConcatMap(xs, f), ConcatMap(xs[1..], f), f(xs[i]));
    }
  }

  /** The second of the joined parts occurs in the joined text. */
  lemma JoinContainsSecond(a: string, b: string, rest: seq<string>, sep: string)
    ensures Contains(Join([a, b] + rest, sep), b)
  {
    JoinContainsPart([a, b] + rest, sep, 1);
  }

  lemma JoinContainsPart(parts: seq<string>, sep: string, i: nat)
    requires i < |parts|
    ensures Contains(Join(parts, sep), parts[i])
  {
    JoinContainsRun(parts, sep, i, i + 1);
    assert parts[i..i + 1] == [parts[i]];
  }

  /** Three consecutive parts appear together, joined by the separator. */
  lemma JoinContainsThree(parts: seq<string>, sep: string, i: nat)
    requires i + 2 < |parts|
    ensures Contains(Join(parts, sep), parts[i] + sep + parts[i + 1] + sep + parts[i + 2])
  {
    JoinContainsRun(parts, sep, i, i + 3);
    var run := parts[i..i + 3];
    assert run == [parts[i]] + [parts[i + 1], parts[i + 2]];
    JoinCons(parts[i], [parts[i + 1], parts[i + 2]], sep);
    JoinCons(parts[i + 1], [parts[i + 2]], sep);
    assert [parts[i + 1], parts[i + 2]] == [parts[i + 1]] + [parts[i + 2]];
    assert Join([parts[i + 2]], sep) == parts[i + 2];
    var a, b, c := parts[i], parts[i + 1], parts[i + 2];
    assert Join(run, sep) == a + sep + (b + sep + c);
    assert a + sep + (b + sep + c) == a + sep + b + sep + c;
  }

  /** `s.split(sep)` for a one-character separator: the pieces between
      separators, one more piece than there are separators. */
  function Split(s: string, sep: char): (parts: seq<string>)
    ensures |parts| >= 1
    ensures forall i :: 0 <= i < |parts| ==> sep !in parts[i]
    ensures Join(parts, [sep]) == s
    decreases |s|
  {
    if sep !in s then [s]
    else
      var i := FirstIndex(s, sep);
      var rest := Split(s[i + 1..], sep);
      JoinCons(s[..i], rest, [sep]);
      assert s == s[..i] + [sep] + s[i + 1..];
      [s[..i]] + rest
  }

  /** Splitting undoes joining when no part holds the separator. */
  lemma {:induction false} SplitJoin(parts: seq<string>, sep: char)
    requires |parts| >= 1
    requires forall i :: 0 <= i < |parts| ==> sep !in parts[i]
    ensures Split(Join(parts, [sep]), sep) == parts
  {
    if |parts| > 1 {
      var s := Join(parts, [sep]);
      assert s == parts[0] + [sep] + Join(parts[1..], [sep]);
      assert s[|parts[0]|] == sep;
      assert s[..|parts[0]|] == parts[0];
      var i := FirstIndex(s, sep);
      assert i == |parts[0]|;
      assert s[i + 1..] == Join(parts[1..], [sep]);
      SplitJoin(parts[1..], sep);
    }
  }

  function Repeat(c: char, n: nat): (r: string)
    ensures |r| == n && forall i :: 0 <= i < n ==> r[i] == c
  {
    if n == 0 then "" else [c] + Repeat(c, n - 1)
  }

  /** `s.padStart(n, c)` for a one-character pad. */
  function PadStart(s: string, n: nat, c: char): (r: string)
    ensures |r| == if |s| >= n then |s| else n
    ensures r == Repeat(c, |r| - |s|) + s
  {
    if |s| >= n then s else Repeat(c, n - |s|) + s
  }

  predicate StartsWith(s: string, p: string) {
    |p| <= |s| && s[..|p|] == p
  }

  predicate EndsWith(s: string, p: string) {
    |p| <= |s| && s[|s| - |p|..] == p
  }

  predicate IsDigit(c: char) {
    '0' <= c <= '9'
  }

  predicate AllDigits(s: string) {
    forall i :: 0 <= i < |s| ==> IsDigit(s[i])
  }

  function DigitChar(d: nat): (c: char)
    requires d < 10
    ensures IsDigit(c) && c as int - '0' as int == d
  {
    (d + '0' as int) as char
  }

  /** `Number(s)` for a non-empty run of decimal digits. */
  function DigitsValue(s: string): nat
    requires AllDigits(s)
  {
    if s == [] then 0
    else DigitsValue(s[..|s| - 1]) * 10 + (s[|s| - 1] as int - '0' as int)
  }

  /** `String(n)` for a non-negative integer: decimal, no leading zero. */
  function NatToString(n: nat): (r: string)
    ensures |r| >= 1 && AllDigits(r)
    ensures |r| > 1 ==> r[0] != '0'
  {
    if n < 10 then [DigitChar(n)]
    else
      var p := NatToString(n / 10);
      assert (p + [DigitChar(n % 10)])[0] == p[0];
      p + [DigitChar(n % 10)]
  }

  lemma {:induction false} NatToStringValue(n: nat)
    ensures DigitsValue(NatToString(n)) == n
  {
    if n >= 10 {
      var s := NatToString(n);
      assert s[..|s| - 1] == NatToString(n / 10);
      NatToStringValue(n / 10);
    }
  }

  /** Fewer digits than `k` exactly when the value is below 10^k. */
  lemma {:induction false} NatToStringShort(n: nat)
    ensures n < 10 ==> |NatToString(n)| == 1
    ensures 10 <= n < 100 ==> |NatToString(n)| == 2
    ensures 100 <= n ==> |NatToString(n)| >= 3
  {
    if n >= 10 {
      NatToStringShort(n / 10);
    }
  }

  /** Code-point lexicographic order, standing in for `localeCompare`. */
  predicate StrLess(a: string, b: string)
  {
    if a == [] then b != []
    else if b == [] then false
    else if a[0] != b[0] then a[0] < b[0]
    else StrLess(a[1..], b[1..])
  }

  lemma {:induction false} StrLessIrreflexive(a: string)
    ensures !StrLess(a, a)
  {
    if a != [] {
      StrLessIrreflexive(a[1..]);
    }
  }

  lemma {:induction false} StrLessTransitive(a: string, b: string, c: string)
    requires StrLess(a, b) && StrLess(b, c)
    ensures StrLess(a, c)
  {
    if a != [] && b != [] && c != [] && a[0] == b[0] && b[0] == c[0] {
      StrLessTransitive(a[1..], b[1..], c[1..]);
    }
  }

  lemma {:induction false} StrLessTotal(a: string, b: string)
    ensures a == b || StrLess(a, b) || StrLess(b, a)
  {
    if a != [] && b != [] && a[0] == b[0] {
      StrLessTotal(a[1..], b[1..]);
      if a[1..] == b[1..] {
        assert a == [a[0]] + a[1..] && b == [b[0]] + b[1..];
      }
    }
  }

  /** ASCII lower-casing (`toLowerCase` on the characters the model compares). */
  function LowerAscii(c: char): char {
    if 'A' <= c <= 'Z' then (c as int + 32) as char else c
  }

  function LowerAsciiString(s: string): (r: string)
    ensures |r| == |s| && forall i :: 0 <= i < |s| ==> r[i] == LowerAscii(s[i])
  {
    if s == [] then "" else [LowerAscii(s[0])] + LowerAsciiString(s[1..])
  }

  /** `s.replace(/\r\n?/g, "\n")`: CRLF and lone CR become LF. */
  function NormalizeNewlines(s: string): (r: string)
    ensures '\r' !in r
    ensures '\r' !in s ==> r == s
  {
    if s == [] then ""
    else if s[0] == '\r' then
      "\n" + (if |s| > 1 && s[1] == '\n' then NormalizeNewlines(s[2..]) else NormalizeNewlines(s[1..]))
    else [s[0]] + NormalizeNewlines(s[1..])
  }
}

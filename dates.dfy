/** `formatDate` and `formatDateShort` of scripts/build.mjs, on dates written
    `YYYY-M-D` with one- or two-digit month and day. */
module Dates {
  import opened Text

  /** The pieces `/^(\d{4})-(\d{1,2})-(\d{1,2})$/` captures. */
  predicate DateParts(y: string, m: string, d: string) {
    |y| == 4 && AllDigits(y) && 1 <= |m| <= 2 && AllDigits(m) && 1 <= |d| <= 2 && AllDigits(d)
  }

  /** The anchored match: four digits, `-`, one or two digits, `-`, one or two
      digits, and nothing else. */
  function MatchDate(s: string): (r: Option<(string, string, string)>)
    ensures r.Some? ==> DateParts(r.value.0, r.value.1, r.value.2)
    ensures r.Some? ==> s == r.value.0 + "-" + r.value.1 + "-" + r.value.2
  {
    if |s| < 5 || !AllDigits(s[..4]) || s[4] != '-' || '-' !in s[5..] then None
    else
      var rest := s[5..];
      var j := FirstIndex(rest, '-');
      var m, d := rest[..j], rest[j + 1..];
      if 1 <= |m| <= 2 && AllDigits(m) && 1 <= |d| <= 2 && AllDigits(d) then
        assert rest == m + "-" + d;
        assert s == s[..4] + "-" + rest;
        Some((s[..4], m, d))
      else None
  }

  /** Every string of that shape matches, with exactly those captures. */
  lemma MatchDateComplete(y: string, m: string, d: string)
    requires DateParts(y, m, d)
    ensures MatchDate(y + "-" + m + "-" + d) == Some((y, m, d))
  {
    var s := y + "-" + m + "-" + d;
    assert s[..4] == y;
    assert s[4] == '-';
    var rest := s[5..];
    assert rest == m + "-" + d;
    assert rest[|m|] == '-';
    assert '-' !in m;
    assert FirstIndex(rest, '-') == |m|;
    assert rest[..|m|] == m && rest[|m| + 1..] == d;
  }

  /** `formatDate`: `Y 年 M 月 D 日` with leading zeros of month and day dropped;
      an empty string is empty and any other string comes back unchanged. */
  function FormatDate(s: string): (r: string)
    ensures s == "" ==> r == ""
    ensures MatchDate(s).None? ==> r == s
    ensures r == "" <==> s == ""
  {
    if s == "" then ""
    else match MatchDate(s)
      case None => s
      case Some((y, m, d)) =>
        y + " 年 " + NatToString(DigitsValue(m)) + " 月 " + NatToString(DigitsValue(d)) + " 日"
  }

  /** `String(n).padStart(2, "0")`. */
  function Pad2(n: nat): (r: string)
    ensures AllDigits(r) && |r| >= 2
    ensures n < 100 ==> |r| == 2
    ensures DigitsValue(r) == n
  {
    var s := NatToString(n);
    NatToStringValue(n);
    NatToStringShort(n);
    LeadingZeros(|PadStart(s, 2, '0')| - |s|, s);
    PadStart(s, 2, '0')
  }

  /** Zeros in front do not change the value of a digit string. */
  lemma {:induction false} LeadingZeros(k: nat, s: string)
    requires AllDigits(s)
    ensures AllDigits(Repeat('0', k) + s)
    ensures DigitsValue(Repeat('0', k) + s) == DigitsValue(s)
    decreases |s|
  {
    var z := Repeat('0', k);
    if s == [] {
      assert z + s == z;
      ZerosValue(k);
    } else {
      var t := z + s;
      assert t[..|t| - 1] == z + s[..|s| - 1];
      LeadingZeros(k, s[..|s| - 1]);
    }
  }

  lemma {:induction false} ZerosValue(k: nat)
    ensures AllDigits(Repeat('0', k)) && DigitsValue(Repeat('0', k)) == 0
  {
    if k > 0 {
      var z := Repeat('0', k);
      assert z[..k - 1] == Repeat('0', k - 1);
      ZerosValue(k - 1);
    }
  }

  /** `formatDateShort`: `YYYY.MM.DD`, month and day padded to two digits. */
  function FormatDateShort(s: string): (r: string)
    ensures s == "" ==> r == ""
    ensures MatchDate(s).None? ==> r == s
    ensures r == "" <==> s == ""
  {
    if s == "" then ""
    else match MatchDate(s)
      case None => s
      case Some((y, m, d)) => y + "." + PadStart(m, 2, '0') + "." + PadStart(d, 2, '0')
  }

  /** A matching date in short form is ten characters `YYYY.MM.DD` whose
      month and day have the values written in the input. */
  lemma FormatDateShortShape(y: string, m: string, d: string)
    requires DateParts(y, m, d)
    ensures var r := FormatDateShort(y + "-" + m + "-" + d);
      && |r| == 10 && r[..4] == y && r[4] == '.' && r[7] == '.'
      && AllDigits(r[5..7]) && DigitsValue(r[5..7]) == DigitsValue(m)
      && AllDigits(r[8..]) && DigitsValue(r[8..]) == DigitsValue(d)
  {
    MatchDateComplete(y, m, d);
    var pm, pd := PadStart(m, 2, '0'), PadStart(d, 2, '0');
    LeadingZeros(2 - |m|, m);
    LeadingZeros(2 - |d|, d);
    var r := y + "." + pm + "." + pd;
    assert r[5..7] == pm && r[8..] == pd;
  }

  /** A matching date in long form carries the year as written and the month
      and day as numbers. */
  lemma FormatDateShape(y: string, m: string, d: string)
    requires DateParts(y, m, d)
    ensures FormatDate(y + "-" + m + "-" + d)
      == y + " 年 " + NatToString(DigitsValue(m)) + " 月 " + NatToString(DigitsValue(d)) + " 日"
  {
    MatchDateComplete(y, m, d);
  }

  /** `todayStr` of lib/commands/new-post.mjs: year, then month and day padded
      to two digits, joined by `-`. */
  function TodayString(year: nat, month: nat, day: nat): string {
    NatToString(year) + "-" + Pad2(month) + "-" + Pad2(day)
  }

  /** A four-digit year and a month and day below 100 give a date the
      formatters recognise. */
  lemma TodayStringMatches(year: nat, month: nat, day: nat)
    requires 1000 <= year <= 9999 && month < 100 && day < 100
    ensures MatchDate(TodayString(year, month, day)) == Some((NatToString(year), Pad2(month), Pad2(day)))
  {
    NatToStringShort(year);
    NatToStringShort(year / 10);
    NatToStringShort(year / 100);
    assert |NatToString(year)| == 4 by {
      assert |NatToString(year)| == |NatToString(year / 10)| + 1;
      assert |NatToString(year / 10)| == |NatToString(year / 100)| + 1;
    }
    MatchDateComplete(NatToString(year), Pad2(month), Pad2(day));
  }
}

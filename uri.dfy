/** `encodeURIComponent` and `decodeURIComponent` (UTF-8 percent-encoding as
    section 2.1 of RFC 3986 and section 3 of RFC 3629 define it), which the
    index page uses for post links and the dev server for request paths. */
module Uri {
  import opened Text

  /** The characters `encodeURIComponent` leaves alone. */
  predicate IsUnreserved(c: char) {
    ('A' <= c <= 'Z') || ('a' <= c <= 'z') || ('0' <= c <= '9')
    || c == '-' || c == '_' || c == '.' || c == '!' || c == '~' || c == '*'
    || c == '\'' || c == '(' || c == ')'
  }

  predicate IsByte(b: int) {
    0 <= b < 256
  }

  /** The UTF-8 bytes of a code point. `x` below is `cp / 64`, `y` is `x / 64`
      and `z` is `y / 64`: six payload bits per continuation byte. */
  function Utf8(c: char): (bs: seq<int>)
    ensures 1 <= |bs| <= 4
    ensures forall i :: 0 <= i < |bs| ==> IsByte(bs[i])
  {
    var cp := c as int;
    var x := cp / 64;
    var y := x / 64;
    var z := y / 64;
    if cp < 0x80 then [cp]
    else if cp < 0x800 then [0xC0 + x, 0x80 + cp % 64]
    else if cp < 0x10000 then [0xE0 + y, 0x80 + x % 64, 0x80 + cp % 64]
    else [0xF0 + z, 0x80 + y % 64, 0x80 + x % 64, 0x80 + cp % 64]
  }

  /** An upper-case hexadecimal digit. */
  function HexDigit(v: int): char
    requires 0 <= v < 16
  {
    if v < 10 then (v + '0' as int) as char else (v - 10 + 'A' as int) as char
  }

  /** The value of a hexadecimal digit of either case. */
  function HexValue(c: char): Option<int> {
    if '0' <= c <= '9' then Some(c as int - '0' as int)
    else if 'A' <= c <= 'F' then Some(c as int - 'A' as int + 10)
    else if 'a' <= c <= 'f' then Some(c as int - 'a' as int + 10)
    else None
  }

  lemma HexValueDigit(v: int)
    requires 0 <= v < 16
    ensures HexValue(HexDigit(v)) == Some(v)
  {
  }

  /** `%XX` for one byte. */
  function Escape(b: int): (r: string)
    requires IsByte(b)
    ensures |r| == 3 && r[0] == '%'
  {
    ['%', HexDigit(b / 16), HexDigit(b % 16)]
  }

  function EscapeAll(bs: seq<int>): (r: string)
    requires forall i :: 0 <= i < |bs| ==> IsByte(bs[i])
    ensures |r| == 3 * |bs|
  {
    if bs == [] then "" else Escape(bs[0]) + EscapeAll(bs[1..])
  }

  function EncodeChar(c: char): (r: string)
    ensures r != []
  {
    if IsUnreserved(c) then [c] else EscapeAll(Utf8(c))
  }

  /** The characters an encoded text is made of. */
  predicate EncodedChars(r: string) {
    forall i :: 0 <= i < |r| ==> IsUnreserved(r[i]) || r[i] == '%' || HexValue(r[i]).Some?
  }

  lemma EncodedConcat(a: string, b: string)
    requires EncodedChars(a) && EncodedChars(b)
    ensures EncodedChars(a + b)
  {
    forall i | 0 <= i < |a + b|
      ensures IsUnreserved((a + b)[i]) || (a + b)[i] == '%' || HexValue((a + b)[i]).Some?
    {
      if i < |a| {
        assert (a + b)[i] == a[i];
      } else {
        assert (a + b)[i] == b[i - |a|];
      }
    }
  }

  /** `encodeURIComponent(s)`. */
  function Encode(s: string): (r: string)
    ensures EncodedChars(r)
    ensures (forall i :: 0 <= i < |s| ==> IsUnreserved(s[i])) ==> r == s
  {
    if s == [] then ""
    else
      EncodeCharChars(s[0]);
      EncodedConcat(EncodeChar(s[0]), Encode(s[1..]));
      EncodeChar(s[0]) + Encode(s[1..])
  }

  lemma EncodeCharChars(c: char)
    ensures EncodedChars(EncodeChar(c))
  {
    if !IsUnreserved(c) {
      EscapeAllChars(Utf8(c));
    }
  }

  lemma {:induction false} EscapeAllChars(bs: seq<int>)
    requires forall i :: 0 <= i < |bs| ==> IsByte(bs[i])
    ensures EncodedChars(EscapeAll(bs))
  {
    if bs != [] {
      EscapeAllChars(bs[1..]);
      var e := Escape(bs[0]);
      HexValueDigit(bs[0] / 16);
      HexValueDigit(bs[0] % 16);
      assert EncodedChars(e);
      EncodedConcat(e, EscapeAll(bs[1..]));
    }
  }

  /** The byte a `%XX` at `i` stands for. */
  function ByteAt(s: string, i: nat): (r: Option<int>)
    ensures r.Some? ==> IsByte(r.value)
  {
    if i + 3 <= |s| && s[i] == '%' && HexValue(s[i + 1]).Some? && HexValue(s[i + 2]).Some? then
      Some(16 * HexValue(s[i + 1]).value + HexValue(s[i + 2]).value)
    else None
  }

  /** The six payload bits of a continuation byte `10xxxxxx` escaped at `i`. */
  function ContAt(s: string, i: nat): (r: Option<int>)
    ensures r.Some? ==> 0 <= r.value < 64
  {
    match ByteAt(s, i)
    case Some(b) => if 0x80 <= b < 0xC0 then Some(b - 0x80) else None
    case None => None
  }

  /** Decodes the escaped UTF-8 sequence at the start of `s` into one
      character and the number of characters it took; `None` is the
      `URIError` for a missing or malformed escape, a byte that cannot start
      a sequence, a missing continuation byte, an over-long form, a surrogate
      or a value beyond U+10FFFF. */
  function DecodeEscape(s: string): (r: Option<(char, nat)>)
    ensures r.Some? ==> 3 <= r.value.1 <= |s|
  {
    match ByteAt(s, 0)
    case None => None
    case Some(b) =>
      if b < 0x80 then Some((b as char, 3))
      else if 0xC0 <= b < 0xE0 then
        match ContAt(s, 3)
        case None => None
        case Some(c1) =>
          var cp := (b - 0xC0) * 64 + c1;
          if cp < 0x80 then None else Some((cp as char, 6))
      else if 0xE0 <= b < 0xF0 then
        match (ContAt(s, 3), ContAt(s, 6))
        case (Some(c1), Some(c2)) =>
          var cp := ((b - 0xE0) * 64 + c1) * 64 + c2;
          if cp < 0x800 || 0xD800 <= cp <= 0xDFFF then None else Some((cp as char, 9))
        case _ => None
      else if 0xF0 <= b < 0xF8 then
        match (ContAt(s, 3), ContAt(s, 6), ContAt(s, 9))
        case (Some(c1), Some(c2), Some(c3)) =>
          var cp := (((b - 0xF0) * 64 + c1) * 64 + c2) * 64 + c3;
          if cp < 0x10000 || cp > 0x10FFFF then None else Some((cp as char, 12))
        case _ => None
      else None
  }

  /** `decodeURIComponent(s)`: every escape is decoded (reserved characters
      included); `None` is the thrown `URIError`. */
  function Decode(s: string): Option<string>
    decreases |s|
  {
    if s == [] then Some("")
    else if s[0] != '%' then
      match Decode(s[1..])
      case None => None
      case Some(t) => Some([s[0]] + t)
    else
      match DecodeEscape(s)
      case None => None
      case Some((c, n)) =>
        match Decode(s[n..])
        case None => None
        case Some(t) => Some([c] + t)
  }

  function Prepend(p: string, r: Option<string>): Option<string> {
    match r
    case None => None
    case Some(t) => Some(p + t)
  }

  lemma EscapeAt(b: int, t: string)
    requires IsByte(b)
    ensures ByteAt(Escape(b) + t, 0) == Some(b)
  {
    HexValueDigit(b / 16);
    HexValueDigit(b % 16);
  }

  lemma ByteAtShift(p: string, s: string, i: nat)
    requires |p| == 3
    ensures ByteAt(p + s, 3 + i) == ByteAt(s, i)
    ensures ContAt(p + s, 3 + i) == ContAt(s, i)
  {
    if i + 3 <= |s| {
      assert (p + s)[3 + i] == s[i] && (p + s)[3 + i + 1] == s[i + 1] && (p + s)[3 + i + 2] == s[i + 2];
    }
  }

  /** Escaped bytes, read back at position `3*k`. */
  lemma {:induction false} EscapeAllAt(bs: seq<int>, t: string, k: nat)
    requires forall i :: 0 <= i < |bs| ==> IsByte(bs[i])
    requires k < |bs|
    ensures ByteAt(EscapeAll(bs) + t, 3 * k) == Some(bs[k])
  {
    var e := Escape(bs[0]);
    var rest := EscapeAll(bs[1..]) + t;
    assert EscapeAll(bs) + t == e + rest;
    if k == 0 {
      EscapeAt(bs[0], rest);
    } else {
      EscapeAllAt(bs[1..], t, k - 1);
      ByteAtShift(e, rest, 3 * (k - 1));
    }
  }

  /** The decoder's arithmetic on the bytes the encoder writes:
      `x == (x / 64) * 64 + x % 64` at each six-bit step. */
  lemma DecodeTwo(s: string, cp: int)
    requires 0x80 <= cp < 0x800
    requires ByteAt(s, 0) == Some(0xC0 + cp / 64)
    requires ByteAt(s, 3) == Some(0x80 + cp % 64)
    ensures DecodeEscape(s) == Some((cp as char, 6))
  {
    assert ContAt(s, 3) == Some(cp % 64);
    assert cp == (cp / 64) * 64 + cp % 64;
  }

  lemma DecodeThree(s: string, cp: int)
    requires 0x800 <= cp < 0x10000 && !(0xD800 <= cp <= 0xDFFF)
    requires ByteAt(s, 0) == Some(0xE0 + cp / 64 / 64)
    requires ByteAt(s, 3) == Some(0x80 + cp / 64 % 64)
    requires ByteAt(s, 6) == Some(0x80 + cp % 64)
    ensures DecodeEscape(s) == Some((cp as char, 9))
  {
    var x := cp / 64;
    var y := x / 64;
    assert ContAt(s, 3) == Some(x % 64);
    assert ContAt(s, 6) == Some(cp % 64);
    assert cp == x * 64 + cp % 64;
    assert x == y * 64 + x % 64;
    assert (y * 64 + x % 64) * 64 + cp % 64 == cp;
  }

  lemma DecodeFour(s: string, cp: int)
    requires 0x10000 <= cp <= 0x10FFFF
    requires ByteAt(s, 0) == Some(0xF0 + cp / 64 / 64 / 64)
    requires ByteAt(s, 3) == Some(0x80 + cp / 64 / 64 % 64)
    requires ByteAt(s, 6) == Some(0x80 + cp / 64 % 64)
    requires ByteAt(s, 9) == Some(0x80 + cp % 64)
    ensures DecodeEscape(s) == Some((cp as char, 12))
  {
    var x := cp / 64;
    var y := x / 64;
    var z := y / 64;
    assert z < 0x11;
    assert ContAt(s, 3) == Some(y % 64);
    assert ContAt(s, 6) == Some(x % 64);
    assert ContAt(s, 9) == Some(cp % 64);
    assert cp == x * 64 + cp % 64;
    assert x == y * 64 + x % 64;
    assert y == z * 64 + y % 64;
    assert ((z * 64 + y % 64) * 64 + x % 64) * 64 + cp % 64 == cp;
  }

  /** The decoder reads an encoded character back. */
  lemma DecodeEncodeChar(c: char, t: string)
    requires !IsUnreserved(c)
    ensures DecodeEscape(EncodeChar(c) + t) == Some((c, 3 * |Utf8(c)|))
  {
    var bs := Utf8(c);
    var s := EncodeChar(c) + t;
    var cp := c as int;
    EscapeAllAt(bs, t, 0);
    if cp < 0x80 {
      assert ByteAt(s, 0) == Some(cp);
    } else if cp < 0x800 {
      EscapeAllAt(bs, t, 1);
      DecodeTwo(s, cp);
    } else if cp < 0x10000 {
      EscapeAllAt(bs, t, 1);
      EscapeAllAt(bs, t, 2);
      DecodeThree(s, cp);
    } else {
      EscapeAllAt(bs, t, 1);
      EscapeAllAt(bs, t, 2);
      EscapeAllAt(bs, t, 3);
      DecodeFour(s, cp);
    }
  }

  lemma PrependPrepend(p: string, q: string, r: Option<string>)
    ensures Prepend(p, Prepend(q, r)) == Prepend(p + q, r)
  {
    match r {
      case None =>
      case Some(u) => assert p + (q + u) == p + q + u;
    }
  }

  lemma PrependEmpty(r: Option<string>)
    ensures Prepend("", r) == r
  {
    match r {
      case None =>
      case Some(u) => assert "" + u == u;
    }
  }

  /** One step of the decoder on a plain character. */
  lemma DecodePlainStep(c: char, u: string)
    requires c != '%'
    ensures Decode([c] + u) == Prepend([c], Decode(u))
  {
    assert ([c] + u)[1..] == u;
  }

  /** One step of the decoder on an escaped sequence. */
  lemma DecodeEscapeStep(e: string, u: string, c: char)
    requires e != [] && e[0] == '%'
    requires DecodeEscape(e + u) == Some((c, |e|))
    ensures Decode(e + u) == Prepend([c], Decode(u))
  {
    assert (e + u)[0] == '%';
    assert (e + u)[|e|..] == u;
  }

  /** Decoding reads an encoded text back and goes on with what follows. */
  lemma {:induction false} DecodeEncodeThen(s: string, t: string)
    ensures Decode(Encode(s) + t) == Prepend(s, Decode(t))
  {
    if s == [] {
      assert Encode(s) + t == t;
      PrependEmpty(Decode(t));
    } else {
      var e := EncodeChar(s[0]);
      var rest := Encode(s[1..]) + t;
      assert Encode(s) + t == e + rest;
      DecodeEncodeThen(s[1..], t);
      if IsUnreserved(s[0]) {
        DecodePlainStep(s[0], rest);
      } else {
        DecodeEncodeChar(s[0], rest);
        DecodeEscapeStep(e, rest, s[0]);
      }
      PrependPrepend([s[0]], s[1..], Decode(t));
      assert [s[0]] + s[1..] == s;
    }
  }

  /** `decodeURIComponent(encodeURIComponent(s)) == s`. */
  lemma DecodeEncode(s: string)
    ensures Decode(Encode(s)) == Some(s)
  {
    DecodeEncodeThen(s, "");
    assert Encode(s) + "" == Encode(s);
    assert s + "" == s;
  }

  /** Text without `%` passes through, and decoding goes on after it. */
  lemma {:induction false} DecodePlainThen(p: string, t: string)
    requires '%' !in p
    ensures Decode(p + t) == Prepend(p, Decode(t))
  {
    if p == [] {
      assert p + t == t;
      PrependEmpty(Decode(t));
    } else {
      assert p + t == [p[0]] + (p[1..] + t);
      DecodePlainStep(p[0], p[1..] + t);
      DecodePlainThen(p[1..], t);
      PrependPrepend([p[0]], p[1..], Decode(t));
      assert [p[0]] + p[1..] == p;
    }
  }

  /** Text without `%` decodes to itself. */
  lemma DecodePlain(p: string)
    requires '%' !in p
    ensures Decode(p) == Some(p)
  {
    DecodePlainThen(p, "");
    assert p + "" == p;
  }

  /** A `%` not followed by two hexadecimal digits is an error. */
  lemma BadEscape(p: string, t: string)
    requires '%' !in p
    requires |t| < 2 || HexValue(t[0]).None? || HexValue(t[1]).None?
    ensures Decode(p + "%" + t) == None
  {
    DecodePlainThen(p, "%" + t);
    assert p + "%" + t == p + ("%" + t);
  }
}

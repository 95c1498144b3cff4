/**
 * ECMAScript `encodeURIComponent` and `decodeURIComponent` (ECMA-262,
 * section 19.2.6): every character outside the unreserved set is written as
 * the `%XX` escapes of its UTF-8 bytes, with upper-case hexadecimal digits;
 * this is the percent-encoding of section 2.1 of RFC 3986.
 *
 * Decoding accepts either case of hexadecimal digit and rejects what
 * `decodeURIComponent` rejects with a `URIError`: a `%` without two
 * hexadecimal digits, a byte that cannot start a UTF-8 sequence, a missing
 * or malformed continuation byte, an overlong form, a surrogate, or a code
 * point above U+10FFFF.
 */
module UriComponent {
  import opened JsText

  type Byte = b: int | 0 <= b < 256

  /** The characters `encodeURIComponent` copies unchanged. */
  predicate Unreserved(c: char) {
    ('A' <= c <= 'Z') || ('a' <= c <= 'z') || ('0' <= c <= '9')
    || c == '-' || c == '_' || c == '.' || c == '!' || c == '~'
    || c == '*' || c == '\'' || c == '(' || c == ')'
  }

  /** The UTF-8 encoding of one code point. */
  function Utf8(c: char): (bs: seq<Byte>)
    ensures 1 <= |bs| <= 4
    ensures |bs| == 1 <==> c as int < 0x80
  {
    var n := c as int;
    if n < 0x80 then [n]
    else if n < 0x800 then [0xC0 + n / 64, 0x80 + n % 64]
    else if n < 0x10000 then [0xE0 + n / 4096, 0x80 + (n / 64) % 64, 0x80 + n % 64]
    else [0xF0 + n / 0x40000, 0x80 + (n / 4096) % 64, 0x80 + (n / 64) % 64, 0x80 + n % 64]
  }

  /** An upper-case hexadecimal digit. */
  function HexDigit(d: int): (c: char)
    requires 0 <= d < 16
    ensures Unreserved(c)
  {
    if d < 10 then ('0' as int + d) as char else ('A' as int + d - 10) as char
  }

  predicate IsUpperHex(c: char) {
    ('0' <= c <= '9') || ('A' <= c <= 'F')
  }

  /** The value of a hexadecimal digit of either case. */
  function HexValue(c: char): (r: Option<int>)
    ensures r.Some? ==> 0 <= r.value < 16
    ensures r.Some? <==> IsUpperHex(c) || ('a' <= c <= 'f')
  {
    if '0' <= c <= '9' then Some(c as int - '0' as int)
    else if 'A' <= c <= 'F' then Some(c as int - 'A' as int + 10)
    else if 'a' <= c <= 'f' then Some(c as int - 'a' as int + 10)
    else None
  }

  lemma HexDigitValue(d: int)
    requires 0 <= d < 16
    ensures IsUpperHex(HexDigit(d)) && HexValue(HexDigit(d)) == Some(d)
  {
  }

  /** `%XX` for one byte. */
  function Escape(b: Byte): (t: string)
    ensures |t| == 3 && t[0] == '%' && IsUpperHex(t[1]) && IsUpperHex(t[2])
  {
    HexDigitValue(b / 16);
    HexDigitValue(b % 16);
    ['%', HexDigit(b / 16), HexDigit(b % 16)]
  }

  /** The escapes of a byte sequence, one after another. */
  function EscapeAll(bs: seq<Byte>): (t: string)
    ensures |t| == 3 * |bs|
    ensures forall i :: 0 <= i < |t| ==> Unreserved(t[i]) || t[i] == '%'
  {
    if bs == [] then [] else Escape(bs[0]) + EscapeAll(bs[1..])
  }

  function EncodeChar(c: char): string {
    if Unreserved(c) then [c] else EscapeAll(Utf8(c))
  }

  /** `encodeURIComponent(s)` */
  function Encode(s: string): (t: string)
    ensures forall i :: 0 <= i < |t| ==> Unreserved(t[i]) || t[i] == '%'
  {
    if s == [] then [] else EncodeChar(s[0]) + Encode(s[1..])
  }

  /** Unreserved characters are copied unchanged: a string made only of them encodes to itself. */
  lemma {:induction false} EncodeKeepsUnreserved(s: string)
    requires forall i :: 0 <= i < |s| ==> Unreserved(s[i])
    ensures Encode(s) == s
  {
    if s != [] {
      EncodeKeepsUnreserved(s[1..]);
      assert s == [s[0]] + s[1..];
    }
  }

  /**
   * A string made only of unreserved characters and `%XX` escapes with
   * upper-case hexadecimal digits.
   */
  predicate Escaped(t: string)
    decreases |t|
  {
    if t == [] then true
    else if t[0] == '%' then |t| >= 3 && IsUpperHex(t[1]) && IsUpperHex(t[2]) && Escaped(t[3..])
    else Unreserved(t[0]) && Escaped(t[1..])
  }

  lemma ConcatFrom(a: string, b: string, k: nat)
    requires k <= |a|
    ensures (a + b)[k..] == a[k..] + b
    ensures forall i :: 0 <= i < k ==> (a + b)[i] == a[i]
  {
  }

  lemma {:induction false} EscapedAppend(a: string, b: string)
    requires Escaped(a) && Escaped(b)
    ensures Escaped(a + b)
    decreases |a|
  {
    if a == [] {
      assert a + b == b;
    } else if a[0] == '%' {
      EscapedAppend(a[3..], b);
      ConcatFrom(a, b, 3);
    } else {
      EscapedAppend(a[1..], b);
      ConcatFrom(a, b, 1);
    }
  }

  lemma {:induction false} EscapeAllEscaped(bs: seq<Byte>)
    ensures Escaped(EscapeAll(bs))
  {
    if bs != [] {
      EscapeAllEscaped(bs[1..]);
      var t := EscapeAll(bs);
      assert t[3..] == EscapeAll(bs[1..]);
    }
  }

  /** The output of `encodeURIComponent` is unreserved characters and `%XX` escapes only. */
  lemma {:induction false} EncodeEscaped(s: string)
    ensures Escaped(Encode(s))
  {
    if s != [] {
      EncodeEscaped(s[1..]);
      if Unreserved(s[0]) {
        assert Escaped([s[0]]) by { assert [s[0]][1..] == []; }
      } else {
        EscapeAllEscaped(Utf8(s[0]));
      }
      EscapedAppend(EncodeChar(s[0]), Encode(s[1..]));
    }
  }

  /** The byte written as `%XX` at position `i`, if there is one there. */
  function ByteAt(t: string, i: nat): (r: Option<Byte>)
    ensures r.Some? ==> i + 3 <= |t|
  {
    if i + 3 <= |t| && t[i] == '%' && HexValue(t[i + 1]).Some? && HexValue(t[i + 2]).Some? then
      Some(HexValue(t[i + 1]).value * 16 + HexValue(t[i + 2]).value)
    else None
  }

  /** The six payload bits of the continuation byte written at position `3 * k`. */
  function ContinuationBits(t: string, k: nat): (r: Option<int>)
    ensures r.Some? ==> 0 <= r.value < 64 && 3 * k + 3 <= |t|
  {
    match ByteAt(t, 3 * k)
    case Some(b) => if 0x80 <= b < 0xC0 then Some(b - 0x80) else None
    case None => None
  }

  /** The character for a code point, unless it is a surrogate or out of range. */
  function ScalarChar(n: int): (r: Option<char>)
    ensures r.Some? ==> r.value as int == n
  {
    if (0 <= n < 0xD800) || (0xE000 <= n <= 0x10FFFF) then Some(n as char) else None
  }

  /**
   * Decodes the escape sequence at the start of `t`: one `%XX` for a byte
   * below 0x80, otherwise a UTF-8 lead byte and its continuation bytes, each
   * written `%XX`. Gives the character and the number of input characters
   * the sequence takes.
   */
  function DecodeEscape(t: string): (r: Option<(char, nat)>)
    ensures r.Some? ==> 3 <= r.value.1 <= |t|
  {
    match ByteAt(t, 0)
    case None => None
    case Some(b0) =>
      if b0 < 0x80 then Some((b0 as char, 3))
      else if 0xC0 <= b0 < 0xE0 then DecodeTwo(b0, t)
      else if 0xE0 <= b0 < 0xF0 then DecodeThree(b0, t)
      else if 0xF0 <= b0 < 0xF8 then DecodeFour(b0, t)
      else None
  }

  /** A two-byte sequence after its lead byte `b0`; overlong forms are refused. */
  function DecodeTwo(b0: int, t: string): (r: Option<(char, nat)>)
    requires 0xC0 <= b0 < 0xE0
    ensures r.Some? ==> r.value.1 == 6 <= |t|
  {
    match ContinuationBits(t, 1)
    case None => None
    case Some(x1) =>
      var n := (b0 - 0xC0) * 64 + x1;
      if n < 0x80 then None else Some((n as char, 6))
  }

  /** A three-byte sequence after its lead byte `b0`; overlong forms and surrogates are refused. */
  function DecodeThree(b0: int, t: string): (r: Option<(char, nat)>)
    requires 0xE0 <= b0 < 0xF0
    ensures r.Some? ==> r.value.1 == 9 <= |t|
  {
    match (ContinuationBits(t, 1), ContinuationBits(t, 2))
    case (Some(x1), Some(x2)) =>
      var n := (b0 - 0xE0) * 4096 + x1 * 64 + x2;
      if n < 0x800 then None
      else (match ScalarChar(n) case Some(c) => Some((c, 9)) case None => None)
    case _ => None
  }

  /** A four-byte sequence after its lead byte `b0`; overlong forms and values past U+10FFFF are refused. */
  function DecodeFour(b0: int, t: string): (r: Option<(char, nat)>)
    requires 0xF0 <= b0 < 0xF8
    ensures r.Some? ==> r.value.1 == 12 <= |t|
  {
    match (ContinuationBits(t, 1), ContinuationBits(t, 2), ContinuationBits(t, 3))
    case (Some(x1), Some(x2), Some(x3)) =>
      var n := (b0 - 0xF0) * 0x40000 + x1 * 4096 + x2 * 64 + x3;
      if n < 0x10000 then None
      else (match ScalarChar(n) case Some(c) => Some((c, 12)) case None => None)
    case _ => None
  }

  /** `decodeURIComponent(t)`; `None` where it throws a `URIError`. */
  function Decode(t: string): (r: Option<string>)
    decreases |t|
  {
    if t == [] then Some([])
    else if t[0] != '%' then
      match Decode(t[1..])
      case None => None
      case Some(rest) => Some([t[0]] + rest)
    else
      match DecodeEscape(t)
      case None => None
      case Some((c, k)) =>
        match Decode(t[k..])
        case None => None
        case Some(rest) => Some([c] + rest)
  }

  function Prepend(c: char, r: Option<string>): Option<string> {
    match r
    case None => None
    case Some(s) => Some([c] + s)
  }

  /** A single escape reads back as its byte. */
  lemma EscapeReadsBack(b: Byte, rest: string)
    ensures ByteAt(Escape(b) + rest, 0) == Some(b)
  {
    var hi, lo := b / 16, b % 16;
    HexDigitValue(hi);
    HexDigitValue(lo);
    var t := Escape(b) + rest;
    assert t[1] == HexDigit(hi) && t[2] == HexDigit(lo);
  }

  lemma ByteAtShift(p: string, t: string, i: nat)
    ensures ByteAt(p + t, |p| + i) == ByteAt(t, i)
  {
    if i + 3 <= |t| {
      assert (p + t)[|p| + i] == t[i];
      assert (p + t)[|p| + i + 1] == t[i + 1];
      assert (p + t)[|p| + i + 2] == t[i + 2];
    }
  }

  /** The `k`-th escape of an escaped byte sequence reads back as the `k`-th byte. */
  lemma {:induction false} ByteAtEscapeAll(bs: seq<Byte>, rest: string, k: nat)
    requires k < |bs|
    ensures ByteAt(EscapeAll(bs) + rest, 3 * k) == Some(bs[k])
  {
    var e := Escape(bs[0]);
    assert EscapeAll(bs) + rest == e + (EscapeAll(bs[1..]) + rest);
    if k == 0 {
      EscapeReadsBack(bs[0], EscapeAll(bs[1..]) + rest);
    } else {
      ByteAtEscapeAll(bs[1..], rest, k - 1);
      ByteAtShift(e, EscapeAll(bs[1..]) + rest, 3 * (k - 1));
    }
  }

  lemma ContinuationAt(bs: seq<Byte>, rest: string, k: nat)
    requires k < |bs| && 0x80 <= bs[k] < 0xC0
    ensures ContinuationBits(EscapeAll(bs) + rest, k) == Some(bs[k] - 0x80)
  {
    ByteAtEscapeAll(bs, rest, k);
  }

  lemma DivMod4096(n: int)
    requires 0 <= n
    ensures n / 4096 == (n / 64) / 64
    ensures n == (n / 4096) * 4096 + ((n / 64) % 64) * 64 + n % 64
  {
    var q := n / 64;
    assert n == q * 64 + n % 64;
    assert q == (q / 64) * 64 + q % 64;
    assert n == (q / 64) * 4096 + (q % 64) * 64 + n % 64;
  }

  lemma DivMod262144(n: int)
    requires 0 <= n
    ensures n / 0x40000 == (n / 4096) / 64
    ensures n == (n / 0x40000) * 0x40000 + ((n / 4096) % 64) * 4096 + ((n / 64) % 64) * 64 + n % 64
  {
    DivMod4096(n);
    var q := n / 4096;
    assert q == (q / 64) * 64 + q % 64;
    assert n == (q / 64) * 0x40000 + (q % 64) * 4096 + ((n / 64) % 64) * 64 + n % 64;
  }

  lemma DecodeEscapeTwoBytes(c: char, rest: string)
    requires 0x80 <= c as int < 0x800
    ensures DecodeEscape(EscapeAll(Utf8(c)) + rest) == Some((c, 6))
  {
    var n := c as int;
    var bs := Utf8(c);
    var t := EscapeAll(bs) + rest;
    ByteAtEscapeAll(bs, rest, 0);
    ContinuationAt(bs, rest, 1);
    var b0: int := bs[0];
    assert 0xC0 <= b0 < 0xE0;
    assert ContinuationBits(t, 1) == Some(n % 64);
    assert (b0 - 0xC0) * 64 + n % 64 == n;
  }

  lemma DecodeEscapeThreeBytes(c: char, rest: string)
    requires 0x800 <= c as int < 0x10000
    ensures DecodeEscape(EscapeAll(Utf8(c)) + rest) == Some((c, 9))
  {
    var n := c as int;
    var bs := Utf8(c);
    var t := EscapeAll(bs) + rest;
    ByteAtEscapeAll(bs, rest, 0);
    ContinuationAt(bs, rest, 1);
    ContinuationAt(bs, rest, 2);
    DivMod4096(n);
    var b0: int := bs[0];
    assert 0xE0 <= b0 < 0xF0;
    assert ContinuationBits(t, 1) == Some((n / 64) % 64);
    assert ContinuationBits(t, 2) == Some(n % 64);
    assert (b0 - 0xE0) * 4096 + ((n / 64) % 64) * 64 + n % 64 == n;
    assert ScalarChar(n) == Some(c);
    assert DecodeThree(b0, t) == Some((c, 9));
  }

  lemma DecodeEscapeFourBytes(c: char, rest: string)
    requires 0x10000 <= c as int
    ensures DecodeEscape(EscapeAll(Utf8(c)) + rest) == Some((c, 12))
  {
    var n := c as int;
    var bs := Utf8(c);
    var t := EscapeAll(bs) + rest;
    var b0, x1, x2, x3 := 0xF0 + n / 0x40000, (n / 4096) % 64, (n / 64) % 64, n % 64;
    assert bs == [b0, 0x80 + x1, 0x80 + x2, 0x80 + x3];
    DivMod262144(n);
    ByteAtEscapeAll(bs, rest, 0);
    ContinuationAt(bs, rest, 1);
    ContinuationAt(bs, rest, 2);
    ContinuationAt(bs, rest, 3);
    assert ScalarChar(n) == Some(c);
    assert DecodeFour(b0, t) == Some((c, 12));
  }

  /** The escapes of a character's UTF-8 bytes decode back to that character. */
  lemma DecodeEscapeUtf8(c: char, rest: string)
    ensures DecodeEscape(EscapeAll(Utf8(c)) + rest) == Some((c, 3 * |Utf8(c)|))
  {
    var n := c as int;
    if n < 0x80 {
      ByteAtEscapeAll(Utf8(c), rest, 0);
    } else if n < 0x800 {
      DecodeEscapeTwoBytes(c, rest);
    } else if n < 0x10000 {
      DecodeEscapeThreeBytes(c, rest);
    } else {
      DecodeEscapeFourBytes(c, rest);
    }
  }

  /** Decoding an encoded character followed by more text decodes the character, then the text. */
  lemma DecodeEncodedChar(c: char, rest: string)
    ensures Decode(EncodeChar(c) + rest) == Prepend(c, Decode(rest))
  {
    var t := EncodeChar(c) + rest;
    if Unreserved(c) {
      assert t[0] == c && t[1..] == rest;
    } else {
      var bs := Utf8(c);
      DecodeEscapeUtf8(c, rest);
      assert t[0] == '%' by { assert EscapeAll(bs)[0] == Escape(bs[0])[0]; }
      assert t[3 * |bs|..] == rest;
    }
  }

  /** `decodeURIComponent(encodeURIComponent(s)) === s` for every well-formed string. */
  lemma {:induction false} DecodeEncode(s: string)
    ensures Decode(Encode(s)) == Some(s)
  {
    if s != [] {
      DecodeEncode(s[1..]);
      DecodeEncodedChar(s[0], Encode(s[1..]));
      assert [s[0]] + s[1..] == s;
    }
  }

  /** Encoding is injective: different strings never share an encoding. */
  lemma EncodeInjective(s1: string, s2: string)
    requires Encode(s1) == Encode(s2)
    ensures s1 == s2
  {
    DecodeEncode(s1);
    DecodeEncode(s2);
  }
}

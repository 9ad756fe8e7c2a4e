/**
 * The escaping functions of Ruby's standard library that the tags call:
 * `URI.encode_www_form_component`, `CGI.escape` and `CGI.escapeHTML`, each
 * with a decoder that undoes it.
 */
module Escape {
  import opened Common
  import Text

  newtype byte = x: int | 0 <= x < 256

  /** The UTF-8 encoding of one Unicode scalar value (RFC 3629, section 3). */
  function Utf8(c: char): (r: seq<byte>)
    ensures 1 <= |r| <= 4
    ensures (c as int < 0x80) == (|r| == 1)
    ensures c as int < 0x80 ==> r[0] as int == c as int
    ensures c as int >= 0x80 ==> forall i :: 0 <= i < |r| ==> r[i] >= 0x80
  {
    var n := c as int;
    if n < 0x80 then [n as byte]
    else if n < 0x800 then [(0xC0 + n / 0x40) as byte, (0x80 + n % 0x40) as byte]
    else if n < 0x1_0000 then
      [(0xE0 + n / 0x1000) as byte, (0x80 + (n / 0x40) % 0x40) as byte, (0x80 + n % 0x40) as byte]
    else
      [(0xF0 + n / 0x4_0000) as byte, (0x80 + (n / 0x1000) % 0x40) as byte,
       (0x80 + (n / 0x40) % 0x40) as byte, (0x80 + n % 0x40) as byte]
  }

  function Utf8Encode(s: string): seq<byte>
  {
    if s == [] then [] else Utf8(s[0]) + Utf8Encode(s[1..])
  }

  /** Which bytes a percent-encoder leaves as they are. */
  datatype Scheme =
    | WwwForm   // URI.encode_www_form_component: * - . 0-9 A-Z _ a-z
    | Cgi       // CGI.escape: - . 0-9 A-Z _ a-z ~

  predicate Keeps(scheme: Scheme, b: byte)
  {
    var c := b as int as char;
    Text.IsAsciiAlnum(c) || c == '-' || c == '.' || c == '_'
    || (scheme == WwwForm && c == '*') || (scheme == Cgi && c == '~')
  }

  const HexDigits: string := "0123456789ABCDEF"

  /** One byte, escaped: a space becomes `+`, a kept byte stays, any other becomes `%XY` in upper-case hex. */
  function EncodeByte(scheme: Scheme, b: byte): (r: string)
    ensures ('+' in r) == (b == 0x20)
    ensures ' ' !in r
    ensures forall i :: 0 <= i < |r| ==> r[i] as int < 0x80
  {
    if b == 0x20 then "+"
    else if Keeps(scheme, b) then [b as int as char]
    else ['%', HexDigits[b as int / 16], HexDigits[b as int % 16]]
  }

  function EncodeBytes(scheme: Scheme, bs: seq<byte>): string
  {
    if bs == [] then [] else EncodeByte(scheme, bs[0]) + EncodeBytes(scheme, bs[1..])
  }

  /** `URI.encode_www_form_component(s)` (scheme WwwForm) or `CGI.escape(s)` (scheme Cgi). */
  function FormEncode(scheme: Scheme, s: string): string
  {
    EncodeBytes(scheme, Utf8Encode(s))
  }

  /** The value of a hexadecimal digit, either case. */
  function HexValue(c: char): Option<int>
  {
    if '0' <= c <= '9' then Some(c as int - '0' as int)
    else if 'A' <= c <= 'F' then Some(c as int - 'A' as int + 10)
    else if 'a' <= c <= 'f' then Some(c as int - 'a' as int + 10)
    else None
  }

  function Prepend(b: byte, rest: Option<seq<byte>>): Option<seq<byte>>
  {
    if rest.Some? then Some([b] + rest.value) else None
  }

  /**
   * Decodes a percent-encoded string to bytes: `%XY` is the byte XY, any other
   * ASCII character is its own code, and when `plusIsSpace` holds a `+` is a
   * space (form decoding). None for a malformed escape or a non-ASCII character.
   */
  function PercentDecode(t: string, plusIsSpace: bool): Option<seq<byte>>
  {
    if t == [] then Some([])
    else if t[0] == '+' && plusIsSpace then Prepend(0x20, PercentDecode(t[1..], plusIsSpace))
    else if t[0] == '%' then
      if |t| >= 3 && HexValue(t[1]).Some? && HexValue(t[2]).Some? then
        Prepend((HexValue(t[1]).value * 16 + HexValue(t[2]).value) as byte, PercentDecode(t[3..], plusIsSpace))
      else None
    else if t[0] as int < 0x80 then Prepend(t[0] as int as byte, PercentDecode(t[1..], plusIsSpace))
    else None
  }

  lemma HexDigitDecodes(d: int)
    requires 0 <= d < 16
    ensures HexValue(HexDigits[d]) == Some(d)
  {
  }

  lemma DecodeEncodedByte(scheme: Scheme, b: byte, rest: string)
    ensures PercentDecode(EncodeByte(scheme, b) + rest, true) == Prepend(b, PercentDecode(rest, true))
  {
    var e := EncodeByte(scheme, b);
    if b != 0x20 && !Keeps(scheme, b) {
      HexDigitDecodes(b as int / 16);
      HexDigitDecodes(b as int % 16);
      assert (e + rest)[3..] == rest;
    } else {
      assert (e + rest)[1..] == rest;
    }
  }

  lemma {:induction false} DecodeEncodedBytes(scheme: Scheme, bs: seq<byte>)
    ensures PercentDecode(EncodeBytes(scheme, bs), true) == Some(bs)
  {
    if bs != [] {
      DecodeEncodedByte(scheme, bs[0], EncodeBytes(scheme, bs[1..]));
      DecodeEncodedBytes(scheme, bs[1..]);
      assert [bs[0]] + bs[1..] == bs;
    }
  }

  /** Form decoding undoes both encoders: the result is the UTF-8 bytes of the input. */
  lemma FormEncodeRoundTrip(scheme: Scheme, s: string)
    ensures PercentDecode(FormEncode(scheme, s), true) == Some(Utf8Encode(s))
  {
    DecodeEncodedBytes(scheme, Utf8Encode(s));
  }

  /** No encoded string contains a space. */
  lemma {:induction false} EncodeBytesHasNoSpace(scheme: Scheme, bs: seq<byte>)
    ensures ' ' !in EncodeBytes(scheme, bs)
  {
    if bs != [] {
      EncodeBytesHasNoSpace(scheme, bs[1..]);
    }
  }

  /**
   * The encoding the iTerm tag puts in its URL: `encode_www_form_component`
   * followed by `gsub('+', '%20')`.
   */
  function ItermEncode(s: string): string
  {
    Text.ReplaceChar(FormEncode(WwwForm, s), '+', "%20")
  }

  lemma PlainDecodeOfEscape(hi: int, lo: int, rest: string)
    requires 0 <= hi < 16 && 0 <= lo < 16
    ensures PercentDecode(['%', HexDigits[hi], HexDigits[lo]] + rest, false)
            == Prepend((hi * 16 + lo) as byte, PercentDecode(rest, false))
  {
    HexDigitDecodes(hi);
    HexDigitDecodes(lo);
    assert (['%', HexDigits[hi], HexDigits[lo]] + rest)[3..] == rest;
  }

  lemma PlainDecodeOfKept(b: byte, rest: string)
    requires b != 0x20 && Keeps(WwwForm, b)
    ensures PercentDecode(Text.ReplaceChar(EncodeByte(WwwForm, b), '+', "%20") + rest, false)
            == Prepend(b, PercentDecode(rest, false))
  {
    var e := EncodeByte(WwwForm, b);
    assert e == [b as int as char];
    assert (e + rest)[1..] == rest;
  }

  lemma PlainDecodeOfItermByte(b: byte, rest: string)
    ensures PercentDecode(Text.ReplaceChar(EncodeByte(WwwForm, b), '+', "%20") + rest, false)
            == Prepend(b, PercentDecode(rest, false))
  {
    if b == 0x20 {
      assert Text.ReplaceChar(EncodeByte(WwwForm, b), '+', "%20") == ['%', HexDigits[2], HexDigits[0]];
      PlainDecodeOfEscape(2, 0, rest);
    } else if Keeps(WwwForm, b) {
      PlainDecodeOfKept(b, rest);
    } else {
      assert EncodeByte(WwwForm, b) == ['%', HexDigits[b as int / 16], HexDigits[b as int % 16]];
      PlainDecodeOfEscape(b as int / 16, b as int % 16, rest);
    }
  }

  lemma {:induction false} PlainDecodeOfItermBytes(bs: seq<byte>)
    ensures PercentDecode(Text.ReplaceChar(EncodeBytes(WwwForm, bs), '+', "%20"), false) == Some(bs)
  {
    if bs != [] {
      var head := EncodeByte(WwwForm, bs[0]);
      var tail := EncodeBytes(WwwForm, bs[1..]);
      Text.ReplaceCharAppend(head, tail, '+', "%20");
      PlainDecodeOfItermByte(bs[0], Text.ReplaceChar(tail, '+', "%20"));
      PlainDecodeOfItermBytes(bs[1..]);
      assert [bs[0]] + bs[1..] == bs;
    }
  }

  /** Plain percent decoding (no `+` rule) of the iTerm encoding gives back the UTF-8 bytes. */
  lemma ItermEncodeRoundTrip(s: string)
    ensures PercentDecode(ItermEncode(s), false) == Some(Utf8Encode(s))
  {
    PlainDecodeOfItermBytes(Utf8Encode(s));
  }

  lemma EncodeByteHasNoAmpersand(scheme: Scheme, b: byte)
    ensures '&' !in EncodeByte(scheme, b)
  {
    if b != 0x20 && !Keeps(scheme, b) {
      assert HexDigits[b as int / 16] != '&' && HexDigits[b as int % 16] != '&';
    }
  }

  lemma {:induction false} EncodeBytesHasNoAmpersand(scheme: Scheme, bs: seq<byte>)
    ensures '&' !in EncodeBytes(scheme, bs)
  {
    if bs != [] {
      EncodeByteHasNoAmpersand(scheme, bs[0]);
      EncodeBytesHasNoAmpersand(scheme, bs[1..]);
    }
  }

  /** The iTerm encoding contains no `&`, so it cannot be confused with the next URL parameter. */
  lemma ItermEncodeHasNoAmpersand(s: string)
    ensures '&' !in ItermEncode(s)
  {
    EncodeBytesHasNoAmpersand(WwwForm, Utf8Encode(s));
    Text.ReplaceCharKeepsOut(FormEncode(WwwForm, s), '+', "%20", '&');
  }

  /** The iTerm encoding contains no `+` at all. */
  lemma ItermEncodeHasNoPlus(s: string)
    ensures '+' !in ItermEncode(s)
  {
  }

  /** `CGI.escapeHTML` of one character. */
  function EscapeHtmlChar(c: char): string
  {
    match c
    case '&' => "&amp;"
    case '<' => "&lt;"
    case '>' => "&gt;"
    case '"' => "&quot;"
    case '\'' => "&#39;"
    case _ => [c]
  }

  predicate IsHtmlSpecial(c: char)
  {
    c == '&' || c == '<' || c == '>' || c == '"' || c == '\''
  }

  /** `CGI.escapeHTML(s)`: no `<`, `>`, `"` or `'` is left, so the result can stand inside a quoted attribute. */
  function EscapeHtml(s: string): (r: string)
    ensures forall i :: 0 <= i < |r| ==> r[i] != '<' && r[i] != '>' && r[i] != '"' && r[i] != '\''
  {
    if s == [] then [] else EscapeHtmlChar(s[0]) + EscapeHtml(s[1..])
  }

  /** `CGI.unescapeHTML` restricted to the five entities `escapeHTML` produces. */
  function UnescapeHtml(t: string): string
  {
    if t == [] then []
    else if "&amp;" <= t then "&" + UnescapeHtml(t[5..])
    else if "&lt;" <= t then "<" + UnescapeHtml(t[4..])
    else if "&gt;" <= t then ">" + UnescapeHtml(t[4..])
    else if "&quot;" <= t then "\"" + UnescapeHtml(t[6..])
    else if "&#39;" <= t then "'" + UnescapeHtml(t[5..])
    else [t[0]] + UnescapeHtml(t[1..])
  }

  lemma UnescapeEscapedChar(c: char, rest: string)
    ensures UnescapeHtml(EscapeHtmlChar(c) + rest) == [c] + UnescapeHtml(rest)
  {
    var e := EscapeHtmlChar(c);
    var t := e + rest;
    assert t[|e|..] == rest;
    if c == '&' {
      assert "&amp;" <= t;
    } else if c == '<' {
      assert t[1] == 'l' && "&lt;" <= t;
    } else if c == '>' {
      assert t[1] == 'g' && t[2] == 't' && "&gt;" <= t;
    } else if c == '"' {
      assert t[1] == 'q' && "&quot;" <= t;
    } else if c == '\'' {
      assert t[1] == '#' && "&#39;" <= t;
    } else {
      assert t[0] == c && t[1..] == rest;
    }
  }

  /** HTML escaping loses nothing: unescaping gives the input back. */
  lemma {:induction false} HtmlRoundTrip(s: string)
    ensures UnescapeHtml(EscapeHtml(s)) == s
  {
    if s != [] {
      UnescapeEscapedChar(s[0], EscapeHtml(s[1..]));
      HtmlRoundTrip(s[1..]);
      assert [s[0]] + s[1..] == s;
    }
  }
}

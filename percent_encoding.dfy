/**
 * The two percent-encoders of the rewriters and their decoders:
 * PHP `urlencode`/`urldecode` (form encoding: space becomes `+`) and
 * JavaScript `encodeURIComponent`/`decodeURIComponent`.
 * Both encode the UTF-8 bytes of the text, with upper-case hex digits.
 */
module PercentEncoding {
  import opened Wrappers
  import Utf8

  type byte = Utf8.byte

  function HexDigit(d: nat): (c: char)
    requires d < 16
  {
    "0123456789ABCDEF"[d]
  }

  predicate IsHexChar(c: char) {
    '0' <= c <= '9' || 'A' <= c <= 'F' || 'a' <= c <= 'f'
  }

  function HexValue(c: char): (d: nat)
    requires IsHexChar(c)
    ensures d < 16
  {
    if '0' <= c <= '9' then c as int - '0' as int
    else if 'A' <= c <= 'F' then c as int - 'A' as int + 10
    else c as int - 'a' as int + 10
  }

  lemma HexRoundTrip(d: nat)
    requires d < 16
    ensures IsHexChar(HexDigit(d)) && HexValue(HexDigit(d)) == d
  {
  }

  function Escape(b: byte): (r: string)
    ensures |r| == 3 && r[0] == '%' && IsHexChar(r[1]) && IsHexChar(r[2])
    ensures HexValue(r[1]) * 16 + HexValue(r[2]) == b
  {
    HexRoundTrip(b / 16);
    HexRoundTrip(b % 16);
    ['%', HexDigit(b / 16), HexDigit(b % 16)]
  }

  predicate IsAsciiAlnum(b: int) {
    '0' as int <= b <= '9' as int || 'A' as int <= b <= 'Z' as int || 'a' as int <= b <= 'z' as int
  }

  // ---------------------------------------------------------------------
  // PHP urlencode / urldecode

  /** Bytes PHP `urlencode` leaves as they are: letters, digits and `-_.`. */
  predicate FormUnreserved(b: int) {
    IsAsciiAlnum(b) || b == '-' as int || b == '_' as int || b == '.' as int
  }

  /** The characters `urlencode` can produce. */
  predicate FormOutputChar(c: char) {
    FormUnreserved(c as int) || c == '+' || c == '%'
  }

  function FormEncodeBytes(bs: seq<byte>): (r: string)
    ensures forall k :: 0 <= k < |r| ==> FormOutputChar(r[k])
  {
    if bs == [] then ""
    else
      var b := bs[0];
      var unit := if FormUnreserved(b) then [b as char] else if b == 0x20 then "+" else Escape(b);
      unit + FormEncodeBytes(bs[1..])
  }

  /** PHP `urlencode` of a string held as UTF-8. */
  function UrlEncode(s: string): (r: string)
    ensures forall k :: 0 <= k < |r| ==> FormOutputChar(r[k])
  {
    FormEncodeBytes(Utf8.Encode(s))
  }

  /** Every byte becomes at least one character. */
  lemma {:induction false} FormEncodeBytesLength(bs: seq<byte>)
    ensures |FormEncodeBytes(bs)| >= |bs|
  {
    if bs != [] {
      FormEncodeBytesLength(bs[1..]);
    }
  }

  lemma UrlEncodeLength(s: string)
    ensures |UrlEncode(s)| >= |Utf8.Encode(s)|
  {
    FormEncodeBytesLength(Utf8.Encode(s));
  }

  /** `urlencode` output never holds a line break. */
  lemma UrlEncodeHasNoNewline(s: string)
    ensures '\n' !in UrlEncode(s)
  {
    var r := UrlEncode(s);
    forall k | 0 <= k < |r| ensures r[k] != '\n' {
      assert FormOutputChar(r[k]);
    }
  }

  /** PHP `urldecode`: `+` is a space, `%` and two hex digits a byte, anything else its own bytes. */
  function UrlDecode(s: string): seq<byte>
    decreases |s|
  {
    if s == [] then []
    else if s[0] == '+' then [0x20] + UrlDecode(s[1..])
    else if s[0] == '%' && |s| >= 3 && IsHexChar(s[1]) && IsHexChar(s[2]) then
      [HexValue(s[1]) * 16 + HexValue(s[2])] + UrlDecode(s[3..])
    else Utf8.EncodeChar(s[0]) + UrlDecode(s[1..])
  }

  lemma {:induction false} FormDecodeEncodeBytes(bs: seq<byte>)
    ensures UrlDecode(FormEncodeBytes(bs)) == bs
    decreases |bs|
  {
    if bs != [] {
      var b := bs[0];
      var rest := FormEncodeBytes(bs[1..]);
      FormDecodeEncodeBytes(bs[1..]);
      assert [b] + bs[1..] == bs;
      if FormUnreserved(b) {
        var s := [b as char] + rest;
        assert s[0] != '+' && s[0] != '%' && s[1..] == rest;
        assert Utf8.EncodeChar(s[0]) == [b];
        assert UrlDecode(s) == [b] + bs[1..];
      } else if b == 0x20 {
        var s := "+" + rest;
        assert s[0] == '+' && s[1..] == rest;
        assert UrlDecode(s) == [b] + bs[1..];
      } else {
        var s := Escape(b) + rest;
        assert s[0] == '%' && IsHexChar(s[1]) && IsHexChar(s[2]) && s[3..] == rest;
        assert HexValue(s[1]) * 16 + HexValue(s[2]) == b;
        assert UrlDecode(s) == [b] + bs[1..];
      }
    }
  }

  /** `urldecode` undoes `urlencode`: it yields the UTF-8 bytes of the encoded string. */
  lemma UrlDecodeEncode(s: string)
    ensures UrlDecode(UrlEncode(s)) == Utf8.Encode(s)
    ensures Utf8.Decode(UrlDecode(UrlEncode(s))) == Some(s)
  {
    FormDecodeEncodeBytes(Utf8.Encode(s));
    Utf8.DecodeEncode(s);
  }

  // ---------------------------------------------------------------------
  // JavaScript encodeURIComponent / decodeURIComponent

  /** The characters `encodeURIComponent` leaves unescaped: letters, digits and `-_.!~*'()`. */
  predicate ComponentUnreserved(b: int) {
    IsAsciiAlnum(b) || b == '-' as int || b == '_' as int || b == '.' as int || b == '!' as int
    || b == '~' as int || b == '*' as int || b == '\'' as int || b == '(' as int || b == ')' as int
  }

  predicate ComponentOutputChar(c: char) {
    ComponentUnreserved(c as int) || c == '%'
  }

  function ComponentEncodeBytes(bs: seq<byte>): (r: string)
    ensures forall k :: 0 <= k < |r| ==> ComponentOutputChar(r[k])
  {
    if bs == [] then ""
    else
      var b := bs[0];
      var unit := if ComponentUnreserved(b) then [b as char] else Escape(b);
      unit + ComponentEncodeBytes(bs[1..])
  }

  /** `encodeURIComponent`: every code point outside the unreserved set becomes its escaped UTF-8 bytes. */
  function EncodeUriComponent(s: string): (r: string)
    ensures forall k :: 0 <= k < |r| ==> ComponentOutputChar(r[k])
  {
    ComponentEncodeBytes(Utf8.Encode(s))
  }

  /** `encodeURIComponent` output never holds a line break. */
  lemma EncodeUriComponentHasNoNewline(s: string)
    ensures '\n' !in EncodeUriComponent(s)
  {
    var r := EncodeUriComponent(s);
    forall k | 0 <= k < |r| ensures r[k] != '\n' {
      assert ComponentOutputChar(r[k]);
    }
  }

  /** The bytes denoted by a component; `None` where a `%` is not followed by two hex digits. */
  function ComponentBytes(s: string): Option<seq<byte>>
    decreases |s|
  {
    if s == [] then Some([])
    else if s[0] == '%' then
      if |s| >= 3 && IsHexChar(s[1]) && IsHexChar(s[2]) then
        match ComponentBytes(s[3..])
        case None => None
        case Some(rest) => Some([HexValue(s[1]) * 16 + HexValue(s[2])] + rest)
      else None
    else
      match ComponentBytes(s[1..])
      case None => None
      case Some(rest) => Some(Utf8.EncodeChar(s[0]) + rest)
  }

  /** `decodeURIComponent`: `None` stands for the URIError it throws on malformed input. */
  function DecodeUriComponent(s: string): Option<string> {
    match ComponentBytes(s)
    case None => None
    case Some(bs) => Utf8.Decode(bs)
  }

  lemma {:induction false} ComponentBytesOfEncoded(bs: seq<byte>)
    ensures ComponentBytes(ComponentEncodeBytes(bs)) == Some(bs)
    decreases |bs|
  {
    if bs != [] {
      var b := bs[0];
      var rest := ComponentEncodeBytes(bs[1..]);
      ComponentBytesOfEncoded(bs[1..]);
      assert [b] + bs[1..] == bs;
      if ComponentUnreserved(b) {
        var s := [b as char] + rest;
        assert s[0] != '%' && s[1..] == rest;
        assert Utf8.EncodeChar(s[0]) == [b];
        assert ComponentBytes(s) == Some([b] + bs[1..]);
      } else {
        var s := Escape(b) + rest;
        assert s[0] == '%' && IsHexChar(s[1]) && IsHexChar(s[2]) && s[3..] == rest;
        assert HexValue(s[1]) * 16 + HexValue(s[2]) == b;
        assert ComponentBytes(s) == Some([b] + bs[1..]);
      }
    }
  }

  /** `decodeURIComponent(encodeURIComponent(s)) == s`. */
  lemma DecodeUriComponentEncode(s: string)
    ensures DecodeUriComponent(EncodeUriComponent(s)) == Some(s)
  {
    ComponentBytesOfEncoded(Utf8.Encode(s));
    Utf8.DecodeEncode(s);
  }
}

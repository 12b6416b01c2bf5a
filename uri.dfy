/**
 * `encodeURIComponent`: UTF-8 (RFC 3629, section 3) followed by percent-encoding
 * (RFC 3986, section 2.1) of every byte outside the characters JavaScript leaves
 * alone, and the decoding a reader of a query string applies to undo it.
 */
module Uri {
  import opened Common

  type Byte = x: int | 0 <= x < 256

  // ---------------------------------------------------------------- UTF-8

  /** The UTF-8 bytes of one Unicode scalar value. */
  function Utf8Char(c: char): (bs: seq<Byte>)
    ensures 1 <= |bs| <= 4
    ensures (c as int < 0x80) <==> |bs| == 1
    ensures |bs| == 1 ==> bs[0] == c as int
  {
    var cp := c as int;
    if cp < 0x80 then [cp]
    else if cp < 0x800 then [0xC0 + cp / 64, 0x80 + cp % 64]
    else if cp < 0x10000 then [0xE0 + cp / 4096, 0x80 + (cp / 64) % 64, 0x80 + cp % 64]
    else [0xF0 + cp / 262144, 0x80 + (cp / 4096) % 64, 0x80 + (cp / 64) % 64, 0x80 + cp % 64]
  }

  function Utf8(s: string): seq<Byte> {
    if s == [] then [] else Utf8Char(s[0]) + Utf8(s[1..])
  }

  predicate IsContinuation(b: Byte) {
    0x80 <= b < 0xC0
  }

  /** The payload bits of a continuation byte. */
  function Low6(b: Byte): int {
    b as int - 0x80
  }

  /** The scalar value `cp` as a character, if it is one. */
  function ToChar(cp: int): Option<char> {
    if 0 <= cp < 0xD800 || 0xE000 <= cp < 0x11_0000 then Some(cp as char) else None
  }

  /** The first character encoded at the head of `bs`, with the number of bytes it takes. */
  function DecodeFirst(bs: seq<Byte>): (r: Option<(char, nat)>)
    requires bs != []
    ensures r.Some? ==> 1 <= r.value.1 <= |bs|
  {
    var b0: int := bs[0];
    if b0 < 0x80 then Some((b0 as char, 1))
    else if 0xC0 <= b0 < 0xE0 && |bs| >= 2 && IsContinuation(bs[1]) then
      var c := ToChar((b0 - 0xC0) * 64 + Low6(bs[1]));
      if c.Some? then Some((c.value, 2)) else None
    else if 0xE0 <= b0 < 0xF0 && |bs| >= 3 && IsContinuation(bs[1]) && IsContinuation(bs[2]) then
      var c := ToChar(((b0 - 0xE0) * 64 + Low6(bs[1])) * 64 + Low6(bs[2]));
      if c.Some? then Some((c.value, 3)) else None
    else if 0xF0 <= b0 < 0xF8 && |bs| >= 4 && IsContinuation(bs[1]) && IsContinuation(bs[2])
            && IsContinuation(bs[3]) then
      var c := ToChar((((b0 - 0xF0) * 64 + Low6(bs[1])) * 64 + Low6(bs[2])) * 64 + Low6(bs[3]));
      if c.Some? then Some((c.value, 4)) else None
    else None
  }

  /** UTF-8 decoding; `None` for a malformed byte sequence. */
  function Utf8Decode(bs: seq<Byte>): Option<string>
    decreases |bs|
  {
    if bs == [] then Some("")
    else
      match DecodeFirst(bs)
      case None => None
      case Some((c, n)) =>
        match Utf8Decode(bs[n..])
        case None => None
        case Some(rest) => Some([c] + rest)
  }

  /** Splitting off the continuation bits of a code point. */
  lemma Split64(cp: int)
    requires cp >= 0
    ensures (cp / 64) * 64 + cp % 64 == cp
    ensures (cp / 4096) * 64 + (cp / 64) % 64 == cp / 64
    ensures (cp / 262144) * 64 + (cp / 4096) % 64 == cp / 4096
  {
    var q := cp / 64;
    assert cp / 4096 == q / 64;
    var q2 := cp / 4096;
    assert cp / 262144 == q2 / 64;
  }

  /** The decoder reads back each character the encoder writes. */
  lemma DecodeFirstUtf8Char(c: char, rest: seq<Byte>)
    ensures DecodeFirst(Utf8Char(c) + rest) == Some((c, |Utf8Char(c)|))
  {
    var cp := c as int;
    var bs := Utf8Char(c) + rest;
    Split64(cp);
    var b0: int := bs[0];
    if cp < 0x80 {
    } else if cp < 0x800 {
      assert b0 == 0xC0 + cp / 64 && Low6(bs[1]) == cp % 64;
      assert (b0 - 0xC0) * 64 + Low6(bs[1]) == cp;
    } else if cp < 0x10000 {
      assert b0 == 0xE0 + cp / 4096;
      assert ((b0 - 0xE0) * 64 + Low6(bs[1])) * 64 + Low6(bs[2]) == cp;
    } else {
      assert b0 == 0xF0 + cp / 262144;
      assert (((b0 - 0xF0) * 64 + Low6(bs[1])) * 64 + Low6(bs[2])) * 64 + Low6(bs[3]) == cp;
    }
  }

  /** UTF-8 decoding undoes UTF-8 encoding. */
  lemma {:induction false} Utf8RoundTrip(s: string)
    ensures Utf8Decode(Utf8(s)) == Some(s)
  {
    if s != [] {
      var head := Utf8Char(s[0]);
      var bs := Utf8(s);
      assert bs == head + Utf8(s[1..]);
      DecodeFirstUtf8Char(s[0], Utf8(s[1..]));
      assert bs[|head|..] == Utf8(s[1..]);
      Utf8RoundTrip(s[1..]);
      assert Utf8Decode(bs) == Some([s[0]] + s[1..]);
      assert [s[0]] + s[1..] == s;
    }
  }

  // ---------------------------------------------------------------- percent-encoding

  /** The characters `encodeURIComponent` leaves as they are. */
  predicate Unreserved(c: char) {
    || ('A' <= c <= 'Z') || ('a' <= c <= 'z') || ('0' <= c <= '9')
    || c == '-' || c == '_' || c == '.' || c == '!' || c == '~' || c == '*' || c == '\'' || c == '(' || c == ')'
  }

  function HexDigit(d: nat): (c: char)
    requires d < 16
  {
    "0123456789ABCDEF"[d]
  }

  function HexValue(c: char): Option<nat> {
    if '0' <= c <= '9' then Some(c as int - '0' as int)
    else if 'A' <= c <= 'F' then Some(c as int - 'A' as int + 10)
    else if 'a' <= c <= 'f' then Some(c as int - 'a' as int + 10)
    else None
  }

  lemma HexValueOfHexDigit(d: nat)
    requires d < 16
    ensures HexValue(HexDigit(d)) == Some(d)
  {
  }

  /** One byte as `encodeURIComponent` writes it. */
  function EncodeByte(b: Byte): string {
    if b < 0x80 && Unreserved(b as char) then [b as char] else ['%', HexDigit(b / 16), HexDigit(b % 16)]
  }

  function EncodeBytes(bs: seq<Byte>): string {
    if bs == [] then "" else EncodeByte(bs[0]) + EncodeBytes(bs[1..])
  }

  /** `encodeURIComponent(s)`. */
  function EncodeURIComponent(s: string): (r: string)
    ensures r == [] <==> s == []
  {
    EncodeBytes(Utf8(s))
  }

  /** Percent-decoding to bytes: `%XX` is one byte, any other character stands for its UTF-8 bytes. */
  function PercentDecode(t: string): Option<seq<Byte>>
    decreases |t|
  {
    if t == [] then Some([])
    else if t[0] == '%' then
      if |t| >= 3 && HexValue(t[1]).Some? && HexValue(t[2]).Some? then
        match PercentDecode(t[3..])
        case None => None
        case Some(rest) => Some([HexValue(t[1]).value * 16 + HexValue(t[2]).value] + rest)
      else None
    else
      match PercentDecode(t[1..])
      case None => None
      case Some(rest) => Some(Utf8Char(t[0]) + rest)
  }

  /** What a reader of a query parameter recovers: percent-decoding, then UTF-8 decoding. */
  function DecodeURIComponent(t: string): Option<string> {
    match PercentDecode(t)
    case None => None
    case Some(bs) => Utf8Decode(bs)
  }

  /** Decoding an encoded byte followed by more text yields the byte, then what the rest decodes to. */
  lemma DecodeEncodedByte(b: Byte, rest: string, tail: seq<Byte>)
    requires PercentDecode(rest) == Some(tail)
    ensures PercentDecode(EncodeByte(b) + rest) == Some([b] + tail)
  {
    var t := EncodeByte(b) + rest;
    if b < 0x80 && Unreserved(b as char) {
      assert t[0] == b as char && t[0] != '%';
      assert Utf8Char(t[0]) == [b];
      assert t[1..] == rest;
    } else {
      HexValueOfHexDigit(b / 16);
      HexValueOfHexDigit(b % 16);
      assert t[0] == '%' && |t| >= 3;
      assert HexValue(t[1]) == Some(b / 16) && HexValue(t[2]) == Some(b % 16);
      assert t[3..] == rest;
      assert (b / 16) * 16 + b % 16 == b;
    }
  }

  lemma {:induction false} PercentRoundTrip(bs: seq<Byte>)
    ensures PercentDecode(EncodeBytes(bs)) == Some(bs)
  {
    if bs != [] {
      PercentRoundTrip(bs[1..]);
      assert EncodeBytes(bs) == EncodeByte(bs[0]) + EncodeBytes(bs[1..]);
      DecodeEncodedByte(bs[0], EncodeBytes(bs[1..]), bs[1..]);
      assert [bs[0]] + bs[1..] == bs;
    }
  }

  /** Decoding an encoded component gives back the original string. */
  lemma EncodeURIComponentRoundTrip(s: string)
    ensures DecodeURIComponent(EncodeURIComponent(s)) == Some(s)
  {
    PercentRoundTrip(Utf8(s));
    Utf8RoundTrip(s);
  }

  /** Every character of an encoded component is unreserved or part of a `%XX` escape,
      so it never holds a query-string delimiter such as `&`, `=`, `#` or `+`. */
  lemma {:induction false} EncodedCharacters(bs: seq<Byte>)
    ensures forall i :: 0 <= i < |EncodeBytes(bs)| ==>
              Unreserved(EncodeBytes(bs)[i]) || EncodeBytes(bs)[i] == '%'
  {
    if bs != [] {
      EncodedCharacters(bs[1..]);
      var head := EncodeByte(bs[0]);
      assert forall i :: 0 <= i < |head| ==> Unreserved(head[i]) || head[i] == '%';
    }
  }

  lemma EncodedHasNoDelimiter(s: string)
    ensures '&' !in EncodeURIComponent(s) && '=' !in EncodeURIComponent(s)
    ensures '#' !in EncodeURIComponent(s) && '+' !in EncodeURIComponent(s)
  {
    EncodedCharacters(Utf8(s));
    var e := EncodeURIComponent(s);
    assert forall i :: 0 <= i < |e| ==> e[i] != '&' && e[i] != '=' && e[i] != '#' && e[i] != '+';
  }

  /** A string of unreserved characters is its own encoding. */
  lemma {:induction false} EncodeUnreserved(s: string)
    requires forall i :: 0 <= i < |s| ==> Unreserved(s[i])
    ensures EncodeURIComponent(s) == s
  {
    if s != [] {
      assert Utf8(s) == [s[0] as int] + Utf8(s[1..]);
      EncodeUnreserved(s[1..]);
    }
  }
}

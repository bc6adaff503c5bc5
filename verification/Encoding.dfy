/** Hexadecimal, base64 as Node writes and reads it, and UTF-8 length. */
module Encoding {
  import opened JsonText
  import Text

  type Byte = b: nat | b < 256

  // ---------- Hexadecimal ----------

  function Hex(bytes: seq<Byte>): (text: JsString)
    ensures |text| == 2 * |bytes|
  {
    if bytes == [] then [] else [HexDigit(bytes[0] / 16), HexDigit(bytes[0] % 16)] + Hex(bytes[1..])
  }

  predicate IsHexDigit(u: CodeUnit) {
    0x30 <= u <= 0x39 || 0x61 <= u <= 0x66
  }

  /** Lowercase hexadecimal of exactly this many bytes. */
  predicate IsHex(text: JsString, bytes: nat) {
    |text| == 2 * bytes && forall i :: 0 <= i < |text| ==> IsHexDigit(text[i])
  }

  function Unhex(text: JsString): (bytes: seq<Byte>)
    ensures |bytes| == |text| / 2
  {
    if |text| < 2 then []
    else [(HexValue(text[0]) * 16 + HexValue(text[1])) % 256] + Unhex(text[2..])
  }

  lemma {:induction false} HexOfUnhex(text: JsString, bytes: nat)
    requires IsHex(text, bytes)
    ensures Hex(Unhex(text)) == text
  {
    if bytes > 0 {
      hide HexDigit, HexValue, Hex, IsHexDigit;
      HexOfUnhex(text[2..], bytes - 1);
      NibblePair(text[0], text[1]);
      HexOfPair(HexValue(text[0]) * 16 + HexValue(text[1]), Unhex(text[2..]));
      assert text == [text[0], text[1]] + text[2..];
    }
  }

  lemma HexOfPair(b: Byte, rest: seq<Byte>)
    ensures Hex([b] + rest) == [HexDigit(b / 16), HexDigit(b % 16)] + Hex(rest)
  {
    assert ([b] + rest)[1..] == rest;
  }

  lemma NibblePair(high: CodeUnit, low: CodeUnit)
    requires IsHexDigit(high) && IsHexDigit(low)
    ensures var b := HexValue(high) * 16 + HexValue(low);
      b < 256 && HexDigit(b / 16) == high && HexDigit(b % 16) == low
  {
    var h, l := HexValue(high), HexValue(low);
    assert h < 16 && l < 16;
    assert (h * 16 + l) / 16 == h && (h * 16 + l) % 16 == l;
  }

  // ---------- Base64 ----------

  const PAD: CodeUnit := 0x3D

  type Sextet = n: nat | n < 64

  function Base64Char(n: Sextet): CodeUnit {
    if n < 26 then 0x41 + n
    else if n < 52 then 0x61 + (n - 26)
    else if n < 62 then 0x30 + (n - 52)
    else if n == 62 then 0x2B
    else 0x2F
  }

  predicate IsBase64Char(u: CodeUnit) {
    0x41 <= u <= 0x5A || 0x61 <= u <= 0x7A || 0x30 <= u <= 0x39 || u == 0x2B || u == 0x2F
  }

  function Base64Value(u: CodeUnit): Sextet {
    if 0x41 <= u <= 0x5A then u - 0x41
    else if 0x61 <= u <= 0x7A then u - 0x61 + 26
    else if 0x30 <= u <= 0x39 then u - 0x30 + 52
    else if u == 0x2B then 62
    else if u == 0x2F then 63
    else 0
  }

  lemma Base64CharRoundTrip(n: Sextet)
    ensures IsBase64Char(Base64Char(n)) && Base64Value(Base64Char(n)) == n
  {
  }

  function Base64(bytes: seq<Byte>): JsString {
    if |bytes| == 0 then []
    else if |bytes| == 1 then [Base64Char(bytes[0] / 4), Base64Char(bytes[0] % 4 * 16), PAD, PAD]
    else if |bytes| == 2 then
      [Base64Char(bytes[0] / 4), Base64Char(bytes[0] % 4 * 16 + bytes[1] / 16), Base64Char(bytes[1] % 16 * 4), PAD]
    else
      [Base64Char(bytes[0] / 4), Base64Char(bytes[0] % 4 * 16 + bytes[1] / 16),
       Base64Char(bytes[1] % 16 * 4 + bytes[2] / 64), Base64Char(bytes[2] % 64)] + Base64(bytes[3..])
  }

  /** `/^[A-Za-z0-9+/]*={0,2}$/`, and not empty. */
  predicate Base64Syntax(text: JsString) {
    && text != []
    && exists pads :: 0 <= pads <= 2 && pads <= |text| && PaddedBy(text, pads)
  }

  predicate PaddedBy(text: JsString, pads: nat)
    requires pads <= |text|
  {
    && (forall i :: 0 <= i < |text| - pads ==> IsBase64Char(text[i]))
    && (forall i :: |text| - pads <= i < |text| ==> text[i] == PAD)
  }

  /** Node's lenient decoder: it stops at padding and drops a dangling character. */
  function Unbase64(text: JsString): seq<Byte> {
    if |text| < 2 || text[0] == PAD || text[1] == PAD then []
    else
      var a, b := Base64Value(text[0]), Base64Value(text[1]);
      if |text| < 3 || text[2] == PAD then [a * 4 + b / 16]
      else
        var c := Base64Value(text[2]);
        if |text| < 4 || text[3] == PAD then [a * 4 + b / 16, b % 16 * 16 + c / 4]
        else [a * 4 + b / 16, b % 16 * 16 + c / 4, c % 4 * 64 + Base64Value(text[3])] + Unbase64(text[4..])
  }

  lemma SextetsOf(x: Byte, y: Byte, z: Byte)
    ensures x / 4 < 64 && x % 4 * 16 + y / 16 < 64 && y % 16 * 4 + z / 64 < 64 && z % 64 < 64
    ensures x / 4 * 4 + (x % 4 * 16 + y / 16) / 16 == x
    ensures (x % 4 * 16 + y / 16) % 16 * 16 + (y % 16 * 4 + z / 64) / 4 == y
    ensures (y % 16 * 4 + z / 64) % 4 * 64 + z % 64 == z
  {
    FirstByte(x, y / 16);
    MiddleByte(x % 4, y, z / 64);
    LastByte(y % 16, z);
  }

  lemma FirstByte(x: Byte, high: nat)
    requires high < 16
    ensures x / 4 * 4 + (x % 4 * 16 + high) / 16 == x
  {
    assert (x % 4 * 16 + high) / 16 == x % 4;
  }

  lemma MiddleByte(low: nat, y: Byte, high: nat)
    requires low < 4 && high < 4
    ensures (low * 16 + y / 16) % 16 * 16 + (y % 16 * 4 + high) / 4 == y
  {
    assert (low * 16 + y / 16) % 16 == y / 16;
    assert (y % 16 * 4 + high) / 4 == y % 16;
  }

  lemma LastByte(low: nat, z: Byte)
    requires low < 16
    ensures (low * 4 + z / 64) % 4 * 64 + z % 64 == z
  {
    assert (low * 4 + z / 64) % 4 == z / 64;
  }

  /** Decoding what was encoded gives the bytes back. */
  lemma {:induction false} Base64RoundTrip(bytes: seq<Byte>)
    ensures Unbase64(Base64(bytes)) == bytes
  {
    hide Unbase64, Base64Char;
    if |bytes| == 0 {
      UnbaseNothing();
    } else if |bytes| >= 3 {
      Base64RoundTrip(bytes[3..]);
      Base64Group(bytes[0], bytes[1], bytes[2], Base64(bytes[3..]));
      assert bytes == [bytes[0], bytes[1], bytes[2]] + bytes[3..];
    } else if |bytes| == 2 {
      assert bytes == [bytes[0], bytes[1]];
      Base64Pair(bytes[0], bytes[1]);
    } else {
      assert bytes == [bytes[0]];
      Base64Single(bytes[0]);
    }
  }

  lemma UnbaseNothing()
    ensures Unbase64([]) == []
  {
  }

  lemma Base64Group(x: Byte, y: Byte, z: Byte, rest: JsString)
    ensures x / 4 < 64 && x % 4 * 16 + y / 16 < 64 && y % 16 * 4 + z / 64 < 64 && z % 64 < 64
    ensures Unbase64([Base64Char(x / 4), Base64Char(x % 4 * 16 + y / 16), Base64Char(y % 16 * 4 + z / 64), Base64Char(z % 64)] + rest)
      == [x, y, z] + Unbase64(rest)
  {
    SextetsOf(x, y, z);
    hide Base64Char, Base64Value;
    Base64CharRoundTrip(x / 4);
    Base64CharRoundTrip(x % 4 * 16 + y / 16);
    Base64CharRoundTrip(y % 16 * 4 + z / 64);
    Base64CharRoundTrip(z % 64);
    var group := [Base64Char(x / 4), Base64Char(x % 4 * 16 + y / 16), Base64Char(y % 16 * 4 + z / 64), Base64Char(z % 64)];
    assert (group + rest)[4..] == rest;
  }

  lemma NoPad(n: Sextet)
    ensures Base64Char(n) != PAD
  {
  }

  lemma UnbasePair(a: Sextet, b: Sextet, c: Sextet)
    ensures Unbase64([Base64Char(a), Base64Char(b), Base64Char(c), PAD]) == [a * 4 + b / 16, b % 16 * 16 + c / 4]
  {
    hide Base64Char, Base64Value;
    NoPad(a);
    NoPad(b);
    NoPad(c);
    Base64CharRoundTrip(a);
    Base64CharRoundTrip(b);
    Base64CharRoundTrip(c);
  }

  lemma UnbaseSingle(a: Sextet, b: Sextet)
    ensures Unbase64([Base64Char(a), Base64Char(b), PAD, PAD]) == [a * 4 + b / 16]
  {
    hide Base64Char, Base64Value;
    NoPad(a);
    NoPad(b);
    Base64CharRoundTrip(a);
    Base64CharRoundTrip(b);
  }

  lemma Base64Pair(x: Byte, y: Byte)
    ensures Unbase64(Base64([x, y])) == [x, y]
  {
    hide Base64Char, Base64Value, Unbase64;
    SextetsOf(x, y, 0);
    UnbasePair(x / 4, x % 4 * 16 + y / 16, y % 16 * 4);
  }

  lemma Base64Single(x: Byte)
    ensures Unbase64(Base64([x])) == [x]
  {
    hide Base64Char, Base64Value, Unbase64;
    SextetsOf(x, 0, 0);
    UnbaseSingle(x / 4, x % 4 * 16);
  }

  predicate Base64Units(text: JsString) {
    forall i :: 0 <= i < |text| ==> IsBase64Char(text[i]) || text[i] == PAD
  }

  lemma {:induction false} Base64IsSyntax(bytes: seq<Byte>)
    requires bytes != []
    ensures Base64Syntax(Base64(bytes)) && Base64Units(Base64(bytes))
  {
    hide Base64Char;
    if |bytes| == 1 {
      SextetsOf(bytes[0], 0, 0);
      Base64CharRoundTrip(bytes[0] / 4);
      Base64CharRoundTrip(bytes[0] % 4 * 16);
      assert PaddedBy(Base64(bytes), 2);
    } else if |bytes| == 2 {
      SextetsOf(bytes[0], bytes[1], 0);
      Base64CharRoundTrip(bytes[0] / 4);
      Base64CharRoundTrip(bytes[0] % 4 * 16 + bytes[1] / 16);
      Base64CharRoundTrip(bytes[1] % 16 * 4);
      assert PaddedBy(Base64(bytes), 1);
    } else {
      var rest := Base64(bytes[3..]);
      if |bytes| == 3 {
        assert rest == [] && PaddedBy(rest, 0);
      } else {
        Base64IsSyntax(bytes[3..]);
      }
      GroupIsSyntax(bytes[0], bytes[1], bytes[2], rest);
    }
  }

  lemma GroupIsSyntax(x: Byte, y: Byte, z: Byte, rest: JsString)
    requires rest == [] || Base64Syntax(rest)
    ensures x / 4 < 64 && x % 4 * 16 + y / 16 < 64 && y % 16 * 4 + z / 64 < 64 && z % 64 < 64
    ensures var text := [Base64Char(x / 4), Base64Char(x % 4 * 16 + y / 16), Base64Char(y % 16 * 4 + z / 64), Base64Char(z % 64)] + rest;
      Base64Syntax(text) && Base64Units(text)
  {
    SextetsOf(x, y, z);
    hide Base64Char;
    Base64CharRoundTrip(x / 4);
    Base64CharRoundTrip(x % 4 * 16 + y / 16);
    Base64CharRoundTrip(y % 16 * 4 + z / 64);
    Base64CharRoundTrip(z % 64);
    var group := [Base64Char(x / 4), Base64Char(x % 4 * 16 + y / 16), Base64Char(y % 16 * 4 + z / 64), Base64Char(z % 64)];
    if rest == [] {
      assert PaddedBy(group + rest, 0);
    } else {
      var pads :| 0 <= pads <= 2 && pads <= |rest| && PaddedBy(rest, pads);
      assert PaddedBy(group + rest, pads);
    }
  }

  // ---------- UTF-8 ----------

  /** Bytes of the text in UTF-8; a surrogate pair is one code point, a lone surrogate U+FFFD. */
  function Utf8Length(s: JsString): nat {
    if s == [] then 0
    else if |s| >= 2 && Lead(s[0]) && Trail(s[1]) then 4 + Utf8Length(s[2..])
    else Text.Utf8Width(s[0]) + Utf8Length(s[1..])
  }
}

/** JSON strings as JavaScript writes them, over UTF-16 code units. */
module JsonText {
  type CodeUnit = u: nat | u < 0x10000

  /** A JavaScript string. */
  type JsString = seq<CodeUnit>

  const QUOTE: CodeUnit := 0x22
  const BACKSLASH: CodeUnit := 0x5C
  const SMALL_U: CodeUnit := 0x75

  predicate Lead(u: CodeUnit) {
    0xD800 <= u <= 0xDBFF
  }

  predicate Trail(u: CodeUnit) {
    0xDC00 <= u <= 0xDFFF
  }

  predicate Surrogate(u: CodeUnit) {
    Lead(u) || Trail(u)
  }

  function HexDigit(d: nat): CodeUnit
    requires d < 16
  {
    if d < 10 then 0x30 + d else 0x57 + d
  }

  function HexValue(u: CodeUnit): nat {
    if 0x30 <= u <= 0x39 then u - 0x30 else if 0x61 <= u <= 0x66 then u - 0x57 else 0
  }

  /** The letter of a two-character escape, for the code units that have one. */
  function ShortEscape(u: CodeUnit): CodeUnit {
    if u == 0x08 then 0x62
    else if u == 0x09 then 0x74
    else if u == 0x0A then 0x6E
    else if u == 0x0C then 0x66
    else if u == 0x0D then 0x72
    else u
  }

  function Unescaped(letter: CodeUnit): CodeUnit {
    if letter == 0x62 then 0x08
    else if letter == 0x74 then 0x09
    else if letter == 0x6E then 0x0A
    else if letter == 0x66 then 0x0C
    else if letter == 0x72 then 0x0D
    else letter
  }

  predicate HasShortEscape(u: CodeUnit) {
    u == QUOTE || u == BACKSLASH || ShortEscape(u) != u
  }

  function Hex4(u: CodeUnit): JsString {
    [HexDigit(u / 0x1000), HexDigit(u / 0x100 % 16), HexDigit(u / 0x10 % 16), HexDigit(u % 16)]
  }

  /** `QuoteJSONString` for a code unit outside a surrogate pair. */
  function Escape(u: CodeUnit): (text: JsString)
    ensures text != [] && text[0] != QUOTE
  {
    if HasShortEscape(u) then [BACKSLASH, ShortEscape(u)]
    else if u < 0x20 || Surrogate(u) then [BACKSLASH, SMALL_U] + Hex4(u)
    else [u]
  }

  function Body(s: JsString): JsString {
    if s == [] then []
    else if |s| >= 2 && Lead(s[0]) && Trail(s[1]) then s[..2] + Body(s[2..])
    else Escape(s[0]) + Body(s[1..])
  }

  function Quoted(s: JsString): JsString {
    [QUOTE] + Body(s) + [QUOTE]
  }

  // ---------- Reading a string back ----------

  /** One code unit, raw or escaped. */
  function ReadUnit(text: JsString): (r: (CodeUnit, JsString))
    requires text != []
    ensures |r.1| < |text|
  {
    if text[0] != BACKSLASH || |text| < 2 then (text[0], text[1..])
    else if text[1] != SMALL_U || |text| < 6 then (Unescaped(text[1]), text[2..])
    else
      var code := HexValue(text[2]) * 0x1000 + HexValue(text[3]) * 0x100 + HexValue(text[4]) * 0x10 + HexValue(text[5]);
      (code, text[6..])
  }

  /** The string up to the closing quote, and what follows it. */
  function ReadBody(text: JsString): (JsString, JsString)
    decreases |text|
  {
    if text == [] then ([], [])
    else if text[0] == QUOTE then ([], text[1..])
    else
      var (u, rest) := ReadUnit(text);
      var (s, after) := ReadBody(rest);
      ([u] + s, after)
  }

  lemma HexRoundTrip(u: CodeUnit)
    ensures HexValue(HexDigit(u / 0x1000)) * 0x1000 + HexValue(HexDigit(u / 0x100 % 16)) * 0x100
      + HexValue(HexDigit(u / 0x10 % 16)) * 0x10 + HexValue(HexDigit(u % 16)) == u
  {
    hide HexDigit, HexValue;
    NibblesAddUp(u);
    HexDigitRoundTrip(u / 0x1000);
    HexDigitRoundTrip(u / 0x100 % 16);
    HexDigitRoundTrip(u / 0x10 % 16);
    HexDigitRoundTrip(u % 16);
  }

  lemma NibblesAddUp(u: CodeUnit)
    ensures u / 0x1000 * 0x1000 + u / 0x100 % 16 * 0x100 + u / 0x10 % 16 * 0x10 + u % 16 == u
  {
    var b, c := u / 0x10, u / 0x100;
    assert b / 16 == c && c / 16 == u / 0x1000;
    assert u == 16 * b + u % 16 && b == 16 * c + b % 16 && c == 16 * (u / 0x1000) + c % 16;
  }

  lemma HexDigitRoundTrip(d: nat)
    requires d < 16
    ensures HexValue(HexDigit(d)) == d
  {
  }

  lemma ReadEscaped(u: CodeUnit, rest: JsString)
    ensures ReadUnit(Escape(u) + rest) == (u, rest)
  {
    hide HexDigit, HexValue;
    HexRoundTrip(u);
    var text := Escape(u) + rest;
    assert text[|Escape(u)|..] == rest;
  }

  lemma ReadStep(u: CodeUnit, escaped: JsString, rest: JsString, s: JsString, after: JsString)
    requires escaped != [] && escaped[0] != QUOTE
    requires ReadUnit(escaped + rest) == (u, rest) && ReadBody(rest) == (s, after)
    ensures ReadBody(escaped + rest) == ([u] + s, after)
  {
  }

  /** Reading what was written gives the string and the rest back. */
  lemma {:induction false} BodyRoundTrip(s: JsString, rest: JsString)
    ensures ReadBody(Body(s) + [QUOTE] + rest) == (s, rest)
  {
    hide ReadBody, ReadUnit, Escape;
    if s == [] {
      ReadEnd(rest);
      assert Body(s) + [QUOTE] + rest == [QUOTE] + rest;
    } else if |s| >= 2 && Lead(s[0]) && Trail(s[1]) {
      var tail := Body(s[2..]) + [QUOTE] + rest;
      BodyRoundTrip(s[2..], rest);
      ReadRaw(s[1], tail);
      ReadStep(s[1], [s[1]], tail, s[2..], rest);
      ReadRaw(s[0], [s[1]] + tail);
      ReadStep(s[0], [s[0]], [s[1]] + tail, [s[1]] + s[2..], rest);
      assert Body(s) + [QUOTE] + rest == [s[0]] + ([s[1]] + tail);
      assert s == [s[0]] + ([s[1]] + s[2..]);
    } else {
      var tail := Body(s[1..]) + [QUOTE] + rest;
      BodyRoundTrip(s[1..], rest);
      ReadEscaped(s[0], tail);
      ReadStep(s[0], Escape(s[0]), tail, s[1..], rest);
      assert Body(s) + [QUOTE] + rest == Escape(s[0]) + tail;
      assert s == [s[0]] + s[1..];
    }
  }

  lemma ReadEnd(rest: JsString)
    ensures ReadBody([QUOTE] + rest) == ([], rest)
  {
    assert ([QUOTE] + rest)[1..] == rest;
  }

  lemma ReadRaw(u: CodeUnit, rest: JsString)
    requires u != BACKSLASH
    ensures ReadUnit([u] + rest) == (u, rest)
  {
    assert ([u] + rest)[1..] == rest;
  }

  /** A quoted string at the head of a text determines the string and what follows. */
  lemma QuotedSplits(a: JsString, x: JsString, b: JsString, y: JsString)
    requires Quoted(a) + x == Quoted(b) + y
    ensures a == b && x == y
  {
    hide Body;
    var text := Quoted(a) + x;
    assert text[1..] == Body(a) + [QUOTE] + x;
    assert text[1..] == Body(b) + [QUOTE] + y;
    BodyRoundTrip(a, x);
    BodyRoundTrip(b, y);
  }

  // ---------- The output encodes to UTF-8 faithfully ----------

  /** No lone surrogate: such text survives encoding to UTF-8 unchanged. */
  predicate WellFormed(s: JsString) {
    s == []
    || (!Surrogate(s[0]) && WellFormed(s[1..]))
    || (|s| >= 2 && Lead(s[0]) && Trail(s[1]) && WellFormed(s[2..]))
  }

  lemma {:induction false} WellFormedConcat(a: JsString, b: JsString)
    requires WellFormed(a) && WellFormed(b)
    ensures WellFormed(a + b)
  {
    if a == [] {
      assert a + b == b;
    } else if !Surrogate(a[0]) {
      WellFormedConcat(a[1..], b);
      assert (a + b)[1..] == a[1..] + b;
    } else {
      WellFormedConcat(a[2..], b);
      assert (a + b)[2..] == a[2..] + b;
    }
  }

  predicate Plain(s: JsString) {
    forall i :: 0 <= i < |s| ==> !Surrogate(s[i])
  }

  lemma {:induction false} PlainIsWellFormed(s: JsString)
    requires Plain(s)
    ensures WellFormed(s)
  {
    if s != [] {
      PlainIsWellFormed(s[1..]);
    }
  }

  lemma {:induction false} BodyIsWellFormed(s: JsString)
    ensures WellFormed(Body(s))
  {
    if s == [] {
    } else if |s| >= 2 && Lead(s[0]) && Trail(s[1]) {
      BodyIsWellFormed(s[2..]);
      assert Body(s)[2..] == Body(s[2..]);
    } else {
      BodyIsWellFormed(s[1..]);
      PlainIsWellFormed(Escape(s[0]));
      WellFormedConcat(Escape(s[0]), Body(s[1..]));
    }
  }

  lemma QuotedIsWellFormed(s: JsString)
    ensures WellFormed(Quoted(s))
  {
    hide Body;
    BodyIsWellFormed(s);
    PlainIsWellFormed([QUOTE]);
    WellFormedConcat([QUOTE], Body(s));
    WellFormedConcat([QUOTE] + Body(s), [QUOTE]);
  }
}

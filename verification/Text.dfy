/** Decimal text, separators and UTF-8 widths. A `char` stands for one code unit. */
module Text {
  import JsonNumber

  /** `String(n)` for a non-negative integer. */
  function Decimal(n: nat): (s: string)
    ensures s != [] && forall c :: c in s ==> '0' <= c <= '9'
  {
    var units := JsonNumber.DecimalUnits(n);
    seq(|units|, i requires 0 <= i < |units| => units[i] as char)
  }

  lemma DecimalIsInjective(a: nat, b: nat)
    requires Decimal(a) == Decimal(b)
    ensures a == b
  {
    hide JsonNumber.DecimalUnits;
    var x, y := JsonNumber.DecimalUnits(a), JsonNumber.DecimalUnits(b);
    forall i | 0 <= i < |x|
      ensures x[i] == y[i]
    {
      assert Decimal(a)[i] == Decimal(b)[i];
    }
    assert x == y;
    JsonNumber.DecimalRoundTrip(a);
    JsonNumber.DecimalRoundTrip(b);
  }

  /** Bytes of one code point in UTF-8. */
  function Utf8Width(codePoint: nat): nat {
    if codePoint < 0x80 then 1 else if codePoint < 0x800 then 2 else if codePoint < 0x10000 then 3 else 4
  }

  /** Text up to the first separator is determined by the whole. */
  lemma SeparatorSplits(a: string, x: string, b: string, y: string, separator: char)
    requires separator !in a && separator !in b
    requires a + [separator] + x == b + [separator] + y
    ensures a == b && x == y
  {
    var whole := a + [separator] + x;
    assert whole[|a|] == separator && whole[|b|] == separator;
    assert forall i :: 0 <= i < |a| ==> whole[i] == a[i];
    assert forall i :: 0 <= i < |b| ==> whole[i] == b[i];
    assert a == whole[..|a|] && b == whole[..|b|];
    assert x == whole[|a| + 1..] && y == whole[|b| + 1..];
  }
}

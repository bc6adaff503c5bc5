/** Outputs fixed by the standards the code writes for: JSON and number text (ECMA-262), base64
  (RFC 4648 section 10), the Merkle tree of RFC 9162 and the C2SP checkpoint text.
 */
module KnownAnswers {
  import opened Prelude
  import opened JsonText
  import opened JsonNumber
  import C = CanonicalJson
  import Encoding
  import M = Merkle
  import Note

  // ---------- Strings and numbers ----------

  /** `JSON.stringify` of a quote, a backslash, a line feed, a tab, U+0001, "a", a lone surrogate. */
  lemma QuotedStrings()
    ensures Quoted([0x22]) == [0x22, 0x5C, 0x22, 0x22]
    ensures Quoted([0x5C]) == [0x22, 0x5C, 0x5C, 0x22]
    ensures Quoted([0x0A]) == [0x22, 0x5C, 0x6E, 0x22]
    ensures Quoted([0x09]) == [0x22, 0x5C, 0x74, 0x22]
    ensures Quoted([0x08]) == [0x22, 0x5C, 0x62, 0x22]
    ensures Quoted([0x0C]) == [0x22, 0x5C, 0x66, 0x22]
    ensures Quoted([0x0D]) == [0x22, 0x5C, 0x72, 0x22]
    ensures Quoted([0x01]) == [0x22, 0x5C, 0x75, 0x30, 0x30, 0x30, 0x31, 0x22]
    ensures Quoted([0x1F]) == [0x22, 0x5C, 0x75, 0x30, 0x30, 0x31, 0x66, 0x22]
    ensures Quoted([0x61]) == [0x22, 0x61, 0x22]
    ensures Quoted([0xD800]) == [0x22, 0x5C, 0x75, 0x64, 0x38, 0x30, 0x30, 0x22]
  {
    OneUnit(0x22);
    OneUnit(0x5C);
    OneUnit(0x0A);
    OneUnit(0x09);
    OneUnit(0x08);
    OneUnit(0x0C);
    OneUnit(0x0D);
    OneUnit(0x01);
    OneUnit(0x1F);
    OneUnit(0x61);
    OneUnit(0xD800);
    hide Quoted, Body;
  }

  lemma OneUnit(u: CodeUnit)
    ensures Quoted([u]) == [QUOTE] + Escape(u) + [QUOTE]
  {
    assert [u][1..] == [] && Body([]) == [];
    assert Body([u]) == Escape(u) + Body([]);
  }

  const ONE := [0x31]

  /** The layouts of `Number::toString` meet at 10^21 and at 10^-6: 1e20 and 0.000001 are written
      out, 1e21 and 1e-7 are not. */
  lemma NumberLayouts()
    ensures Magnitude(ONE, 1) == [0x31]
    ensures Magnitude(ONE, 21) == ONE + Zeros(20)
    ensures Magnitude(ONE, 22) == [0x31, 0x65, 0x2B, 0x32, 0x31]
    ensures Magnitude([0x31, 0x35], 1) == [0x31, 0x2E, 0x35]
    ensures Magnitude(ONE, -5) == [0x30, 0x2E, 0x30, 0x30, 0x30, 0x30, 0x30, 0x31]
    ensures Magnitude(ONE, -6) == [0x31, 0x65, 0x2D, 0x37]
    ensures Magnitude([0x31, 0x35], 22) == [0x31, 0x2E, 0x35, 0x65, 0x2B, 0x32, 0x31]
  {
    assert DecimalUnits(2) == [0x32] && DecimalUnits(21) == [0x32, 0x31] && DecimalUnits(7) == [0x37];
    assert Zeros(5) == [0x30, 0x30, 0x30, 0x30, 0x30] && Zeros(0) == [];
  }

  // ---------- Base64 ----------

  /** "f", "fo" and "foo" of RFC 4648 section 10. */
  lemma Base64Vectors()
    ensures Encoding.Base64([0x66]) == [0x5A, 0x67, 0x3D, 0x3D]
    ensures Encoding.Base64([0x66, 0x6F]) == [0x5A, 0x6D, 0x38, 0x3D]
    ensures Encoding.Base64([0x66, 0x6F, 0x6F]) == [0x5A, 0x6D, 0x39, 0x76]
    ensures Encoding.Base64([0xFB, 0xEF, 0xFF]) == [0x2B, 0x2B, 0x2F, 0x2F]
  {
  }

  // ---------- A canonical object ----------

  const KEY_A := [0x61]
  const KEY_B := [0x62]

  const TRUE_TEXT := [0x74, 0x72, 0x75, 0x65]
  const ITEMS := [C.Null, C.Num(ShortDecimal(false, ONE, 1))]
  const ITEMS_TEXT := [0x5B, 0x6E, 0x75, 0x6C, 0x6C, 0x2C, 0x31, 0x5D]

  /** Keys are written in order, once each, with no space: {"a":true,"b":[null,1]}. */
  lemma CanonicalObject()
    ensures C.Canonical(C.Obj(map[KEY_B := C.Arr(ITEMS), KEY_A := C.Bool(true)]))
      == Some([0x7B, 0x22, 0x61, 0x22, 0x3A] + TRUE_TEXT + [0x2C, 0x22, 0x62, 0x22, 0x3A] + ITEMS_TEXT + [0x7D])
  {
    var props := map[KEY_B := C.Arr(ITEMS), KEY_A := C.Bool(true)];
    assert C.Text(C.Bool(true)) == TRUE_TEXT;
    hide C.Text, C.Accepted, C.KeysOf, C.Kept, C.Sorted, Quoted;
    ObjectAccepted(props);
    ArrayText();
    TwoKeys(props);
    QuotedKeys();
    ObjectText(props);
  }

  lemma ArrayText()
    ensures C.Text(C.Arr(ITEMS)) == ITEMS_TEXT
  {
    NumberLayouts();
    C.TextOfArr(ITEMS);
    JoinTwo(C.ItemTexts(ITEMS));
  }

  lemma QuotedKeys()
    ensures Quoted(KEY_A) == [0x22, 0x61, 0x22] && Quoted(KEY_B) == [0x22, 0x62, 0x22]
  {
    OneUnit(0x61);
    OneUnit(0x62);
  }

  lemma ObjectAccepted(props: map<JsString, C.Value>)
    requires props == map[KEY_B := C.Arr(ITEMS), KEY_A := C.Bool(true)]
    ensures C.Accepted(C.Obj(props), 0)
  {
    assert C.Accepted(C.Arr(ITEMS), 1) && C.Accepted(C.Bool(true), 1);
    forall k | k in props
      ensures C.Accepted(props[k], 1)
    {
      assert k == KEY_A || k == KEY_B;
    }
  }

  lemma TwoKeys(props: map<JsString, C.Value>)
    requires props.Keys == {KEY_A, KEY_B} && props[KEY_A] != C.Undefined && props[KEY_B] != C.Undefined
    ensures C.KeysOf(props) == [KEY_A, KEY_B]
  {
    C.SortedAscends(props.Keys);
    assert C.Leq(KEY_A, KEY_B) && KEY_A != KEY_B;
    assert C.Ascending([KEY_A, KEY_B]);
    C.AscendingIsUnique(C.Sorted(props.Keys), [KEY_A, KEY_B]);
    KeepsBoth(props);
  }

  lemma KeepsBoth(props: map<JsString, C.Value>)
    requires props.Keys == {KEY_A, KEY_B} && props[KEY_A] != C.Undefined && props[KEY_B] != C.Undefined
    ensures C.Kept(props, [KEY_A, KEY_B]) == [KEY_A, KEY_B]
  {
    assert [KEY_A, KEY_B][..1] == [KEY_A];
    assert C.Kept(props, [KEY_A]) == [KEY_A];
  }

  lemma ObjectText(props: map<JsString, C.Value>)
    requires props.Keys == {KEY_A, KEY_B} && C.KeysOf(props) == [KEY_A, KEY_B]
    requires C.Text(props[KEY_A]) == TRUE_TEXT && C.Text(props[KEY_B]) == ITEMS_TEXT
    requires Quoted(KEY_A) == [0x22, 0x61, 0x22] && Quoted(KEY_B) == [0x22, 0x62, 0x22]
    ensures C.Text(C.Obj(props)) == [0x7B, 0x22, 0x61, 0x22, 0x3A] + TRUE_TEXT + [0x2C, 0x22, 0x62, 0x22, 0x3A] + ITEMS_TEXT + [0x7D]
  {
    hide Quoted, C.KeysOf, C.Text, C.Joined;
    C.TextOfObj(props);
    var texts := C.EntryTexts(props, [KEY_A, KEY_B]);
    assert texts[0] == [0x22, 0x61, 0x22, 0x3A] + TRUE_TEXT;
    assert texts[1] == [0x22, 0x62, 0x22, 0x3A] + ITEMS_TEXT;
    JoinTwo(texts);
  }

  lemma JoinTwo(texts: seq<JsString>)
    requires |texts| == 2
    ensures C.Joined(texts) == texts[0] + [C.COMMA] + texts[1]
  {
    assert texts[1..] == [texts[1]];
    assert C.Tail(texts[1..]) == [C.COMMA] + texts[1] + C.Tail(texts[1..][1..]);
    assert C.Tail(texts[1..][1..]) == [];
  }

  // ---------- The Merkle tree ----------

  /** The tree of three leaves, with an inclusion path and two consistency proofs of it. */
  lemma ThreeLeaves(a: M.Digest, b: M.Digest, c: M.Digest)
    ensures M.Root([a, b, c]) == M.NodeDigest(M.NodeDigest(a, b), c)
    ensures M.Path(0, [a, b, c]) == [b, c]
    ensures M.Path(2, [a, b, c]) == [M.NodeDigest(a, b)]
  {
    var left, right := [a, b, c][..2], [a, b, c][2..];
    assert left == [a, b] && right == [c] && M.Split(3) == 2 && M.Split(2) == 1;
    TwoLeaves(a, b);
    assert M.Root([c]) == c;
  }

  lemma TwoLeaves(a: M.Digest, b: M.Digest)
    ensures M.Root([a, b]) == M.NodeDigest(a, b)
    ensures M.Path(0, [a, b]) == [b]
  {
    assert [a, b][..1] == [a] && [a, b][1..] == [b] && M.Split(2) == 1;
    assert M.Root([a]) == a && M.Root([b]) == b && M.Path(0, [a]) == [];
  }

  // ---------- The checkpoint text ----------

  /** Origin, size, root and one extension, a line each; a blank line; then one signature line:
      em dash, name, and base64 of key id and signature. */
  lemma CheckpointText(origin: JsString, extension: JsString, root: JsString, sig: Note.NoteSignature)
    ensures Note.Assembled(Note.Joined(Note.BodyLines(Note.Checkpoint(origin, 5, root, [extension]))), [sig])
      == origin + [0x0A, 0x35, 0x0A] + Encoding.Base64(Encoding.Unhex(root)) + [0x0A] + extension + [0x0A, 0x0A]
         + [0x2014, 0x20] + sig.name + [0x20] + Encoding.Base64(Encoding.Unhex(sig.keyId) + sig.signature) + [0x0A]
  {
    hide Note.Joined, Encoding.Base64, Encoding.Unhex;
    var root64 := Encoding.Base64(Encoding.Unhex(root));
    assert DecimalUnits(5) == [0x35];
    var head := [origin, [0x35], root64];
    Note.HeadJoined(origin, [0x35], root64);
    Note.JoinedSnoc(head, extension);
    assert Note.SignatureTexts([sig]) == [Note.SignatureText(sig)];
    OneLine(Note.SignatureText(sig));
  }

  lemma OneLine(line: JsString)
    ensures Note.Joined([line]) == line + [0x0A]
  {
    assert Note.Joined([line][1..]) == [];
  }
}

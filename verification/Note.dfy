/** The C2SP signed-note and tlog-checkpoint text: printing it and parsing it back. */
module Note {
  import opened Prelude
  import opened JsonText
  import opened JsonNumber
  import opened Encoding

  const NL: CodeUnit := 0x0A
  const SPACE: CodeUnit := 0x20
  const EM_DASH: CodeUnit := 0x2014

  const MAX_NOTE_BYTES: nat := 1024 * 1024
  const MAX_SIGNATURE_LINES: nat := 256
  const ROOT_HASH_BYTES: nat := 32
  const KEY_ID_BYTES: nat := 4

  /** A checkpoint as text: its root is lowercase hexadecimal, no extensions is an empty list. */
  datatype Checkpoint = Checkpoint(origin: JsString, treeSize: int, rootHash: JsString, extensions: seq<JsString>)

  datatype NoteSignature = NoteSignature(name: JsString, keyId: JsString, signature: seq<Byte>)

  datatype ParsedNote = ParsedNote(checkpoint: Checkpoint, body: JsString, signatures: seq<NoteSignature>, malformed: nat)

  /** SHA-256 of the empty string. */
  const EMPTY_TREE_ROOT: JsString := Hex([
    0xE3, 0xB0, 0xC4, 0x42, 0x98, 0xFC, 0x1C, 0x14, 0x9A, 0xFB, 0xF4, 0xC8, 0x99, 0x6F, 0xB9, 0x24,
    0x27, 0xAE, 0x41, 0xE4, 0x64, 0x9B, 0x93, 0x4C, 0xA4, 0x95, 0x99, 0x1B, 0x78, 0x52, 0xB8, 0x55])

  /** A non-empty single line. */
  predicate Line(s: JsString) {
    s != [] && NL !in s
  }

  predicate Lines(lines: seq<JsString>) {
    forall i :: 0 <= i < |lines| ==> Line(lines[i])
  }

  function Joined(lines: seq<JsString>): JsString {
    if lines == [] then [] else lines[0] + [NL] + Joined(lines[1..])
  }

  // ---------- Printing ----------

  predicate Printable(cp: Checkpoint) {
    && Line(cp.origin) && 0 <= cp.treeSize <= MAX_SAFE_INTEGER
    && IsHex(cp.rootHash, ROOT_HASH_BYTES) && Lines(cp.extensions)
  }

  function BodyLines(cp: Checkpoint): seq<JsString>
    requires cp.treeSize >= 0
  {
    [cp.origin, DecimalUnits(cp.treeSize), Base64(Unhex(cp.rootHash))] + cp.extensions
  }

  method CheckpointBody(cp: Checkpoint) returns (body: Option<JsString>)
    ensures body == if Printable(cp) then Some(Joined(BodyLines(cp))) else None
  {
    if cp.origin == [] || NL in cp.origin || cp.treeSize < 0 || cp.treeSize > MAX_SAFE_INTEGER || !IsHex(cp.rootHash, ROOT_HASH_BYTES) {
      return None;
    }
    hide Joined, IsHex, Base64, Unhex, DecimalUnits;
    var head := [cp.origin, DecimalUnits(cp.treeSize), Base64(Unhex(cp.rootHash))];
    var text := cp.origin + [NL] + DecimalUnits(cp.treeSize) + [NL] + Base64(Unhex(cp.rootHash)) + [NL];
    HeadJoined(cp.origin, DecimalUnits(cp.treeSize), Base64(Unhex(cp.rootHash)));
    assert head + cp.extensions[..0] == head;
    var i := 0;
    while i < |cp.extensions|
      invariant 0 <= i <= |cp.extensions|
      invariant text == Joined(head + cp.extensions[..i])
      invariant forall j :: 0 <= j < i ==> Line(cp.extensions[j])
    {
      var ext := cp.extensions[i];
      if ext == [] || NL in ext {
        return None;
      }
      JoinedSnoc(head + cp.extensions[..i], ext);
      assert head + cp.extensions[..i + 1] == head + cp.extensions[..i] + [ext];
      text := text + ext + [NL];
      i := i + 1;
    }
    assert cp.extensions[..i] == cp.extensions;
    body := Some(text);
  }

  lemma HeadJoined(a: JsString, b: JsString, c: JsString)
    ensures Joined([a, b, c]) == a + [NL] + b + [NL] + c + [NL]
  {
    assert [a, b, c][1..] == [b, c] && [b, c][1..] == [c];
    assert Joined([c]) == c + [NL];
  }

  lemma {:induction false} JoinedSnoc(lines: seq<JsString>, line: JsString)
    ensures Joined(lines + [line]) == Joined(lines) + line + [NL]
  {
    if lines == [] {
      assert lines + [line] == [line];
      assert Joined([line]) == line + [NL] + Joined([]);
    } else {
      assert (lines + [line])[1..] == lines[1..] + [line];
      JoinedSnoc(lines[1..], line);
    }
  }

  /** A signature a line can carry: a spaceless name and a four-byte key id. */
  predicate Signable(sig: NoteSignature) {
    Line(sig.name) && SPACE !in sig.name && IsHex(sig.keyId, KEY_ID_BYTES)
  }

  function SignatureText(sig: NoteSignature): JsString {
    [EM_DASH, SPACE] + sig.name + [SPACE] + Base64(Unhex(sig.keyId) + sig.signature)
  }

  function SignatureTexts(sigs: seq<NoteSignature>): (texts: seq<JsString>)
    ensures |texts| == |sigs| && forall i :: 0 <= i < |sigs| ==> texts[i] == SignatureText(sigs[i])
  {
    seq(|sigs|, i requires 0 <= i < |sigs| => SignatureText(sigs[i]))
  }

  /** The body, a blank line, and one line for each signature. */
  function Assembled(body: JsString, sigs: seq<NoteSignature>): JsString {
    body + [NL] + Joined(SignatureTexts(sigs))
  }

  // ---------- Parsing ----------

  /** `split("\\n")`. */
  function Split(s: JsString): (parts: seq<JsString>)
    ensures parts != []
  {
    if s == [] then [[]]
    else
      var rest := Split(s[1..]);
      if s[0] == NL then [[]] + rest else [[s[0]] + rest[0]] + rest[1..]
  }

  /** The first blank line: the first newline that a newline follows. */
  function FirstBlank(s: JsString): (at: Option<nat>)
    ensures at.Some? ==> at.value + 1 < |s|
  {
    if |s| < 2 then None
    else if s[0] == NL && s[1] == NL then Some(0)
    else
      var rest := FirstBlank(s[1..]);
      if rest.None? then None else Some(rest.value + 1)
  }

  predicate SizeSyntax(s: JsString) {
    s != [] && AllDigits(s) && (s == [ZERO] || s[0] != ZERO)
  }

  function ParseBody(lines: seq<JsString>): Option<Checkpoint> {
    if |lines| < 3 || lines[0] == [] || !SizeSyntax(lines[1]) || DecimalValue(lines[1]) > MAX_SAFE_INTEGER then None
    else if !Base64Syntax(lines[2]) || |Unbase64(lines[2])| != ROOT_HASH_BYTES then None
    else
      var size, root := DecimalValue(lines[1]), Hex(Unbase64(lines[2]));
      if size == 0 && root != EMPTY_TREE_ROOT then None
      else if exists i :: 3 <= i < |lines| && lines[i] == [] then None
      else Some(Checkpoint(lines[0], size, root, lines[3..]))
  }

  /** A signature line, or nothing when it is malformed. */
  function ParseSignature(line: JsString): Option<NoteSignature> {
    if |line| < 2 || line[..2] != [EM_DASH, SPACE] then None
    else
      var rest := line[2..];
      if SPACE !in rest || rest[0] == SPACE then None
      else
        var name, text := Before(SPACE, rest), After(SPACE, rest);
        if !Base64Syntax(text) then None
        else
          var payload := Unbase64(text);
          if |payload| < 5 then None
          else Some(NoteSignature(name, Hex(payload[..KEY_ID_BYTES]), payload[KEY_ID_BYTES..]))
  }

  function Parsed(lines: seq<JsString>): seq<NoteSignature> {
    if lines == [] then []
    else
      var before, sig := Parsed(lines[..|lines| - 1]), ParseSignature(lines[|lines| - 1]);
      if sig.Some? then before + [sig.value] else before
  }

  function Malformed(lines: seq<JsString>): nat {
    if lines == [] then 0
    else Malformed(lines[..|lines| - 1]) + if ParseSignature(lines[|lines| - 1]).None? then 1 else 0
  }

  function SignatureLines(block: JsString): seq<JsString> {
    if block == [] then []
    else
      var lines := Split(block);
      if lines[|lines| - 1] == [] then lines[..|lines| - 1] else lines
  }

  function Parse(note: JsString): Option<ParsedNote> {
    if note == [] || Utf8Length(note) > MAX_NOTE_BYTES || FirstBlank(note).None? then None
    else
      var sep := FirstBlank(note).value;
      var body := note[..sep + 1];
      var split := Split(body);
      var cp := ParseBody(split[..|split| - 1]);
      var lines := SignatureLines(note[sep + 2..]);
      if cp.None? || |lines| > MAX_SIGNATURE_LINES then None
      else Some(ParsedNote(cp.value, body, Parsed(lines), Malformed(lines)))
  }

  method ParseNote(note: JsString) returns (parsed: Option<ParsedNote>)
    ensures parsed == Parse(note)
  {
    hide FirstBlank, Split, ParseBody, SignatureLines, ParseSignature, Utf8Length;
    if note == [] || Utf8Length(note) > MAX_NOTE_BYTES {
      return None;
    }
    var sep := FirstBlank(note);
    if sep.None? {
      return None;
    }
    var body, sigBlock := note[..sep.value + 1], note[sep.value + 2..];
    var bodyLines := Split(body);
    var cp := ParseBody(bodyLines[..|bodyLines| - 1]);
    if cp.None? {
      return None;
    }
    var lines := SignatureLines(sigBlock);
    if |lines| > MAX_SIGNATURE_LINES {
      return None;
    }
    var signatures: seq<NoteSignature>, malformed := [], 0;
    var i := 0;
    while i < |lines|
      invariant 0 <= i <= |lines|
      invariant signatures == Parsed(lines[..i]) && malformed == Malformed(lines[..i])
    {
      assert lines[..i + 1][..i] == lines[..i];
      var sig := ParseSignature(lines[i]);
      if sig.None? {
        malformed := malformed + 1;
      } else {
        signatures := signatures + [sig.value];
      }
      i := i + 1;
    }
    assert lines[..i] == lines;
    parsed := Some(ParsedNote(cp.value, body, signatures, malformed));
  }

  // ---------- Reading the layout back ----------

  lemma {:induction false} SplitLine(line: JsString, rest: JsString)
    requires NL !in line
    ensures Split(line + [NL] + rest) == [line] + Split(rest)
  {
    if line == [] {
      assert line + [NL] + rest == [NL] + rest;
      assert ([NL] + rest)[1..] == rest;
    } else {
      var whole := line + [NL] + rest;
      assert whole[1..] == line[1..] + [NL] + rest;
      SplitLine(line[1..], rest);
      assert line == [line[0]] + line[1..];
    }
  }

  lemma {:induction false} SplitJoined(lines: seq<JsString>)
    requires forall i :: 0 <= i < |lines| ==> NL !in lines[i]
    ensures Split(Joined(lines)) == lines + [[]]
  {
    if lines != [] {
      hide Split;
      SplitJoined(lines[1..]);
      SplitLine(lines[0], Joined(lines[1..]));
      assert lines == [lines[0]] + lines[1..];
    }
  }

  lemma {:induction false} BlankAfterText(text: JsString, rest: JsString)
    requires NL !in text
    ensures FirstBlank(text + rest) ==
      if FirstBlank(rest).None? then None else Some(|text| + FirstBlank(rest).value)
  {
    if text == [] {
      assert text + rest == rest;
    } else {
      var whole := text + rest;
      assert whole[1..] == text[1..] + rest;
      BlankAfterText(text[1..], rest);
      if |whole| < 2 {
        assert rest == [];
      }
    }
  }

  /** The blank line is the one after the last body line. */
  lemma {:induction false} BlankAfterLines(lines: seq<JsString>, rest: JsString)
    requires lines != [] && Lines(lines)
    ensures FirstBlank(Joined(lines) + [NL] + rest) == Some(|Joined(lines)| - 1)
  {
    hide FirstBlank;
    var first, tail := lines[0], Joined(lines[1..]);
    var after := [NL] + (tail + [NL] + rest);
    assert Joined(lines) + [NL] + rest == first + after;
    BlankAfterText(first, after);
    if |lines| == 1 {
      assert after == [NL, NL] + rest;
      BlankHere(after);
    } else {
      assert Line(lines[1..][0]);
      BlankAfterLines(lines[1..], rest);
      assert tail[0] == lines[1][0];
      assert after == [NL] + (tail + [NL] + rest);
      BlankNotHere(tail + [NL] + rest);
    }
  }

  lemma BlankHere(s: JsString)
    requires |s| >= 2 && s[0] == NL && s[1] == NL
    ensures FirstBlank(s) == Some(0)
  {
  }

  lemma BlankNotHere(s: JsString)
    requires s != [] && s[0] != NL
    ensures FirstBlank([NL] + s) == if FirstBlank(s).None? then None else Some(FirstBlank(s).value + 1)
  {
    assert ([NL] + s)[1..] == s;
  }

  // ---------- Reading the fields back ----------

  lemma {:induction false} DecimalIsSize(n: nat)
    ensures SizeSyntax(DecimalUnits(n)) && NL !in DecimalUnits(n)
  {
    if n >= 10 {
      DecimalIsSize(n / 10);
    }
  }

  lemma Base64IsLine(bytes: seq<Byte>)
    requires bytes != []
    ensures Line(Base64(bytes))
  {
    hide Base64;
    Base64IsSyntax(bytes);
  }

  lemma BodyLinesAreLines(cp: Checkpoint)
    requires Printable(cp)
    ensures Lines(BodyLines(cp)) && |BodyLines(cp)| >= 3
  {
    hide Base64, DecimalUnits, Unhex, IsHexDigit;
    DecimalIsSize(cp.treeSize);
    Base64IsLine(Unhex(cp.rootHash));
  }

  /** An empty tree must carry the one root an empty tree has. */
  predicate EmptyTreeIsEmpty(cp: Checkpoint) {
    cp.treeSize == 0 ==> cp.rootHash == EMPTY_TREE_ROOT
  }

  lemma ParseBodyOf(cp: Checkpoint)
    requires Printable(cp)
    ensures ParseBody(BodyLines(cp)) == if EmptyTreeIsEmpty(cp) then Some(cp) else None
  {
    hide Base64, Unbase64, DecimalUnits, DecimalValue, Unhex, Hex, IsHexDigit, Base64Syntax, SizeSyntax;
    DecimalIsSize(cp.treeSize);
    DecimalRoundTrip(cp.treeSize);
    Base64IsSyntax(Unhex(cp.rootHash));
    Base64RoundTrip(Unhex(cp.rootHash));
    HexOfUnhex(cp.rootHash, ROOT_HASH_BYTES);
    var lines := BodyLines(cp);
    assert lines[3..] == cp.extensions;
    forall i | 3 <= i < |lines|
      ensures lines[i] != []
    {
      assert Line(cp.extensions[i - 3]);
    }
  }

  lemma ParseSignatureOf(sig: NoteSignature)
    requires Signable(sig)
    ensures ParseSignature(SignatureText(sig)) == if sig.signature == [] then None else Some(sig)
  {
    hide Base64, Unbase64, Unhex, Hex, IsHexDigit, Base64Syntax, Before, After;
    var payload := Unhex(sig.keyId) + sig.signature;
    var text := Base64(payload);
    Base64IsSyntax(payload);
    Base64RoundTrip(payload);
    HexOfUnhex(sig.keyId, KEY_ID_BYTES);
    SplitAt(SPACE, sig.name, text);
    var line := SignatureText(sig);
    assert line[..2] == [EM_DASH, SPACE] && line[2..] == sig.name + [SPACE] + text;
    assert payload[..KEY_ID_BYTES] == Unhex(sig.keyId) && payload[KEY_ID_BYTES..] == sig.signature;
    assert (sig.name + [SPACE] + text)[|sig.name|] == SPACE;
  }

  lemma SignatureTextIsLine(sig: NoteSignature)
    requires Signable(sig)
    ensures Line(SignatureText(sig))
  {
    hide Base64, Unhex, IsHexDigit;
    Base64IsLine(Unhex(sig.keyId) + sig.signature);
  }

  /** The signatures a line can be read back from: an empty one is counted as malformed. */
  function NonEmpty(sigs: seq<NoteSignature>): seq<NoteSignature> {
    if sigs == [] then []
    else
      var before, sig := NonEmpty(sigs[..|sigs| - 1]), sigs[|sigs| - 1];
      if sig.signature != [] then before + [sig] else before
  }

  lemma {:induction false} ParsedSignatures(sigs: seq<NoteSignature>)
    requires forall i :: 0 <= i < |sigs| ==> Signable(sigs[i])
    ensures Parsed(SignatureTexts(sigs)) == NonEmpty(sigs)
    ensures Malformed(SignatureTexts(sigs)) == |sigs| - |NonEmpty(sigs)|
  {
    if sigs != [] {
      hide ParseSignature, SignatureText, Signable;
      var n := |sigs| - 1;
      ParsedSignatures(sigs[..n]);
      ParseSignatureOf(sigs[n]);
      assert SignatureTexts(sigs)[..n] == SignatureTexts(sigs[..n]);
    }
  }

  lemma SignatureBlock(sigs: seq<NoteSignature>)
    requires forall i :: 0 <= i < |sigs| ==> Signable(sigs[i])
    ensures SignatureLines(Joined(SignatureTexts(sigs))) == SignatureTexts(sigs)
  {
    hide Split, SignatureText, Signable;
    var texts := SignatureTexts(sigs);
    forall i | 0 <= i < |texts|
      ensures NL !in texts[i]
    {
      SignatureTextIsLine(sigs[i]);
    }
    SplitJoined(texts);
    if texts != [] {
      assert Joined(texts) != [];
      assert (texts + [[]])[..|texts|] == texts;
    }
  }

  // ---------- The round trip ----------

  /** What parsing an assembled note must give: the checkpoint, the exact body, the
      signatures in order, and a count of the lines too short to hold a signature. */
  function Expected(cp: Checkpoint, sigs: seq<NoteSignature>): ParsedNote
    requires Printable(cp)
  {
    ParsedNote(cp, Joined(BodyLines(cp)), NonEmpty(sigs), |sigs| - LengthOfNonEmpty(sigs))
  }

  function LengthOfNonEmpty(sigs: seq<NoteSignature>): (n: nat)
    ensures n == |NonEmpty(sigs)| && n <= |sigs|
  {
    if sigs == [] then 0 else LengthOfNonEmpty(sigs[..|sigs| - 1]) + if sigs[|sigs| - 1].signature != [] then 1 else 0
  }

  lemma NoteLayout(cp: Checkpoint, sigs: seq<NoteSignature>)
    requires Printable(cp)
    ensures var body := Joined(BodyLines(cp)); var note := Assembled(body, sigs);
      && |body| >= 1 && FirstBlank(note) == Some(|body| - 1)
      && note[..|body|] == body && note[|body| + 1..] == Joined(SignatureTexts(sigs))
      && Split(body) == BodyLines(cp) + [[]]
  {
    hide FirstBlank, Split, BodyLines, SignatureTexts;
    var body := Joined(BodyLines(cp));
    BodyLinesAreLines(cp);
    BlankAfterLines(BodyLines(cp), Joined(SignatureTexts(sigs)));
    SplitJoined(BodyLines(cp));
  }

  /** Within the size limits, an assembled note parses to exactly what went in, unless it
      claims an empty tree with a root no empty tree has: then it is refused. */
  lemma NoteRoundTrip(cp: Checkpoint, sigs: seq<NoteSignature>)
    requires Printable(cp) && forall i :: 0 <= i < |sigs| ==> Signable(sigs[i])
    requires |sigs| <= MAX_SIGNATURE_LINES && Utf8Length(Assembled(Joined(BodyLines(cp)), sigs)) <= MAX_NOTE_BYTES
    ensures Parse(Assembled(Joined(BodyLines(cp)), sigs)) == if EmptyTreeIsEmpty(cp) then Some(Expected(cp, sigs)) else None
  {
    hide FirstBlank, Split, BodyLines, Joined, ParseBody, SignatureLines, Parsed, Malformed, NonEmpty, Utf8Length, Assembled, Signable;
    NoteLayout(cp, sigs);
    SignatureBlock(sigs);
    ParsedSignatures(sigs);
    ParseBodyOf(cp);
    assert (BodyLines(cp) + [[]])[..|BodyLines(cp)|] == BodyLines(cp);
  }

  lemma {:induction false} AllNonEmpty(sigs: seq<NoteSignature>)
    requires forall i :: 0 <= i < |sigs| ==> sigs[i].signature != []
    ensures NonEmpty(sigs) == sigs
  {
    if sigs != [] {
      AllNonEmpty(sigs[..|sigs| - 1]);
      assert sigs == sigs[..|sigs| - 1] + [sigs[|sigs| - 1]];
    }
  }

  /** The printer accepts checkpoints its own parser refuses: exactly the mislabelled empty ones. */
  lemma PrinterOutrunsParser(cp: Checkpoint, sigs: seq<NoteSignature>)
    requires Printable(cp) && forall i :: 0 <= i < |sigs| ==> Signable(sigs[i]) && sigs[i].signature != []
    requires |sigs| <= MAX_SIGNATURE_LINES && Utf8Length(Assembled(Joined(BodyLines(cp)), sigs)) <= MAX_NOTE_BYTES
    ensures Parse(Assembled(Joined(BodyLines(cp)), sigs)) == Some(ParsedNote(cp, Joined(BodyLines(cp)), sigs, 0))
      <==> (cp.treeSize == 0 ==> cp.rootHash == EMPTY_TREE_ROOT)
  {
    hide Parse, Assembled, Joined, BodyLines, Utf8Length, Signable;
    NoteRoundTrip(cp, sigs);
    AllNonEmpty(sigs);
  }

  // ---------- Whatever is parsed could have been printed ----------

  lemma {:induction false} SplitHasNoNewlines(s: JsString)
    ensures forall i :: 0 <= i < |Split(s)| ==> NL !in Split(s)[i]
  {
    if s != [] {
      SplitHasNoNewlines(s[1..]);
    }
  }

  lemma {:induction false} HexIsHex(bytes: seq<Byte>)
    ensures IsHex(Hex(bytes), |bytes|)
  {
    if bytes != [] {
      hide HexDigit;
      HexIsHex(bytes[1..]);
      var pair, rest := [HexDigit(bytes[0] / 16), HexDigit(bytes[0] % 16)], Hex(bytes[1..]);
      forall i | 0 <= i < |pair + rest|
        ensures IsHexDigit((pair + rest)[i])
      {
        assert i >= 2 ==> (pair + rest)[i] == rest[i - 2];
      }
    }
  }

  /** A parsed checkpoint is printable and its empty trees are empty; the body is the text
      before the blank line. */
  lemma ParsedIsPrintable(note: JsString)
    requires Parse(note).Some?
    ensures var p := Parse(note).value;
      && Printable(p.checkpoint) && EmptyTreeIsEmpty(p.checkpoint)
      && |p.body| < |note| && note[..|p.body|] == p.body && note[|p.body|] == NL
  {
    hide FirstBlank, Split, Parsed, Malformed, Utf8Length, SignatureLines, Hex, Unbase64, DecimalValue, IsHexDigit;
    var sep := FirstBlank(note).value;
    BlankIsNewlines(note);
    var split := Split(note[..sep + 1]);
    SplitHasNoNewlines(note[..sep + 1]);
    var lines := split[..|split| - 1];
    HexIsHex(Unbase64(lines[2]));
    forall i | 3 <= i < |lines|
      ensures Line(lines[i])
    {
      assert split[i] == lines[i];
    }
    assert NL !in split[0];
  }

  lemma {:induction false} BeforeIsPart(c: CodeUnit, s: JsString)
    ensures c !in Before(c, s) && |Before(c, s)| <= |s| && Before(c, s) == s[..|Before(c, s)|]
  {
    if s != [] && s[0] != c {
      BeforeIsPart(c, s[1..]);
    }
  }

  lemma ParsedSignatureIsSignable(line: JsString)
    requires NL !in line && ParseSignature(line).Some?
    ensures Signable(ParseSignature(line).value) && ParseSignature(line).value.signature != []
  {
    hide Before, After, Hex, Unbase64, Base64Syntax, IsHexDigit;
    var rest := line[2..];
    BeforeIsPart(SPACE, rest);
    var name := Before(SPACE, rest);
    assert name != [] by {
      BeforeOfOther(SPACE, rest);
    }
    assert forall k :: 0 <= k < |name| ==> name[k] == line[k + 2];
    HexIsHex(Unbase64(After(SPACE, rest))[..KEY_ID_BYTES]);
  }

  lemma BeforeOfOther(c: CodeUnit, s: JsString)
    requires s != [] && s[0] != c
    ensures Before(c, s) != []
  {
  }

  lemma {:induction false} ParsedAreSignable(lines: seq<JsString>)
    requires forall i :: 0 <= i < |lines| ==> NL !in lines[i]
    ensures |Parsed(lines)| <= |lines|
    ensures forall i :: 0 <= i < |Parsed(lines)| ==> Signable(Parsed(lines)[i]) && Parsed(lines)[i].signature != []
  {
    hide ParseSignature, Signable;
    if lines != [] {
      var line := lines[|lines| - 1];
      ParsedAreSignable(lines[..|lines| - 1]);
      if ParseSignature(line).Some? {
        ParsedSignatureIsSignable(line);
      }
    }
  }

  lemma BlockHasNoNewlines(block: JsString)
    ensures forall i :: 0 <= i < |SignatureLines(block)| ==> NL !in SignatureLines(block)[i]
  {
    hide Split;
    SplitHasNoNewlines(block);
  }

  /** Whatever a note said beside its checkpoint and signatures, printing those again gives a
      note that parses to the very same checkpoint and signatures, with no malformed line. */
  lemma ReprintedParses(note: JsString)
    requires Parse(note).Some?
    ensures var p := Parse(note).value;
      && Printable(p.checkpoint)
      && var body := Joined(BodyLines(p.checkpoint));
      && (Utf8Length(Assembled(body, p.signatures)) <= MAX_NOTE_BYTES ==>
          Parse(Assembled(body, p.signatures)) == Some(ParsedNote(p.checkpoint, body, p.signatures, 0)))
  {
    ParsedIsPrintable(note);
    hide FirstBlank, Split, Malformed, ParseBody, Printable, Signable, Utf8Length, SignatureLines, Parsed, Joined, BodyLines, Assembled;
    var p, block := Parse(note).value, note[FirstBlank(note).value + 2..];
    BlockHasNoNewlines(block);
    ParsedAreSignable(SignatureLines(block));
    Reprints(p.checkpoint, p.signatures);
  }

  lemma Reprints(cp: Checkpoint, sigs: seq<NoteSignature>)
    requires Printable(cp) && EmptyTreeIsEmpty(cp) && |sigs| <= MAX_SIGNATURE_LINES
    requires forall i :: 0 <= i < |sigs| ==> Signable(sigs[i]) && sigs[i].signature != []
    ensures var body := Joined(BodyLines(cp));
      Utf8Length(Assembled(body, sigs)) <= MAX_NOTE_BYTES ==> Parse(Assembled(body, sigs)) == Some(ParsedNote(cp, body, sigs, 0))
  {
    hide Parse, Signable, Utf8Length, Joined, BodyLines, Assembled;
    if Utf8Length(Assembled(Joined(BodyLines(cp)), sigs)) <= MAX_NOTE_BYTES {
      PrinterOutrunsParser(cp, sigs);
    }
  }

  lemma {:induction false} BlankIsNewlines(s: JsString)
    requires FirstBlank(s).Some?
    ensures s[FirstBlank(s).value] == NL && s[FirstBlank(s).value + 1] == NL
  {
    if !(s[0] == NL && s[1] == NL) {
      BlankIsNewlines(s[1..]);
    }
  }
}

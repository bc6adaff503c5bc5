/** The hash-chained audit ledger: what verification accepts, and what a retained head pins. */
module Ledger {
  import opened Prelude
  import opened JsonText
  import opened JsonNumber
  import opened CanonicalJson

  datatype Entry = Entry(number: int, timestamp: JsString, kind: JsString, intentId: Option<JsString>,
                         agentId: Option<JsString>, data: Value, prevHash: JsString, hash: JsString)

  /** SHA-256 in hexadecimal, as a function on text; collision-free where a theorem says so. */
  datatype Sha = Sha(hex: JsString -> JsString)

  ghost predicate CollisionFree(sha: Sha) {
    forall a, b :: sha.hex(a) == sha.hex(b) ==> a == b
  }

  const GENESIS_HASH: JsString := Zeros(64)

  // ---------- An integer as a JavaScript number ----------

  function FromInt(n: int): Double {
    if n == 0 then Zero(false)
    else
      var units := DecimalUnits(if n < 0 then -n else n);
      StrippedIsNormal(units, if n < 0 then -n else n);
      ShortDecimal(n < 0, WithoutTrailing(units), |units|)
  }

  lemma {:induction false} FirstDigitNonZero(n: nat)
    requires n > 0
    ensures DecimalUnits(n)[0] != ZERO
  {
    if n >= 10 {
      FirstDigitNonZero(n / 10);
    }
  }

  lemma {:induction false} StrippedRestored(s: JsString)
    ensures |WithoutTrailing(s)| <= |s| && s == WithoutTrailing(s) + Zeros(|s| - |WithoutTrailing(s)|)
    ensures WithoutTrailing(s) == [] || WithoutTrailing(s)[|WithoutTrailing(s)| - 1] != ZERO
  {
    if s != [] && s[|s| - 1] == ZERO {
      var rest := s[..|s| - 1];
      StrippedRestored(rest);
      assert s == rest + [ZERO];
    } else {
      assert WithoutTrailing(s) == s;
      assert s == s + Zeros(0);
    }
  }

  lemma StrippedIsNormal(units: JsString, n: nat)
    requires n > 0 && units == DecimalUnits(n)
    ensures Normal(ShortDecimal(n < 0, WithoutTrailing(units), |units|))
    ensures Normal(ShortDecimal(true, WithoutTrailing(units), |units|))
  {
    hide WithoutTrailing, DecimalUnits;
    FirstDigitNonZero(n);
    StrippedRestored(units);
    assert units[0] != Zeros(|units|)[0];
    assert WithoutTrailing(units) == units[..|WithoutTrailing(units)|];
  }

  lemma FromIntIsInjective(a: int, b: int)
    requires FromInt(a) == FromInt(b)
    ensures a == b
  {
    hide WithoutTrailing, DecimalUnits;
    var m, n := if a < 0 then -a else a, if b < 0 then -b else b;
    if a != 0 && b != 0 {
      StrippedRestored(DecimalUnits(m));
      StrippedRestored(DecimalUnits(n));
      JsonNumber.DecimalRoundTrip(m);
      JsonNumber.DecimalRoundTrip(n);
    }
  }

  // ---------- Entry hashes ----------

  const SEQ := [0x73, 0x65, 0x71]
  const TIMESTAMP := [0x74, 0x69, 0x6D, 0x65, 0x73, 0x74, 0x61, 0x6D, 0x70]
  const TYPE := [0x74, 0x79, 0x70, 0x65]
  const INTENT_ID := [0x69, 0x6E, 0x74, 0x65, 0x6E, 0x74, 0x49, 0x64]
  const AGENT_ID := [0x61, 0x67, 0x65, 0x6E, 0x74, 0x49, 0x64]
  const DATA := [0x64, 0x61, 0x74, 0x61]
  const PREV_HASH := [0x70, 0x72, 0x65, 0x76, 0x48, 0x61, 0x73, 0x68]

  function Optional(o: Option<JsString>): Value {
    if o.Some? then Str(o.value) else Undefined
  }

  /** The entry without its hash, as the object that is serialized; an absent reference is
      an undefined property, which the serializer drops. */
  function Contents(e: Entry): Value {
    Obj(map[SEQ := Num(FromInt(e.number)), TIMESTAMP := Str(e.timestamp), TYPE := Str(e.kind),
            INTENT_ID := Optional(e.intentId), AGENT_ID := Optional(e.agentId), DATA := e.data,
            PREV_HASH := Str(e.prevHash)])
  }

  function EntryHash(sha: Sha, e: Entry): Option<JsString> {
    var text := Canonical(Contents(e));
    if text.None? then None else Some(sha.hex(text.value))
  }

  /** The entries say the same, field by field; their data agree as canonical values. */
  predicate SameContents(a: Entry, b: Entry) {
    && a.number == b.number && a.timestamp == b.timestamp && a.kind == b.kind
    && a.intentId == b.intentId && a.agentId == b.agentId && a.prevHash == b.prevHash
    && Norm(a.data) == Norm(b.data)
  }

  predicate Field(key: JsString) {
    key in {SEQ, TIMESTAMP, TYPE, INTENT_ID, AGENT_ID, DATA, PREV_HASH}
  }

  function FieldOf(e: Entry, key: JsString): Value
    requires Field(key)
  {
    Contents(e).props[key]
  }

  lemma FieldsOf(e: Entry)
    ensures FieldOf(e, SEQ) == Num(FromInt(e.number)) && FieldOf(e, TIMESTAMP) == Str(e.timestamp)
    ensures FieldOf(e, TYPE) == Str(e.kind) && FieldOf(e, INTENT_ID) == Optional(e.intentId)
    ensures FieldOf(e, AGENT_ID) == Optional(e.agentId) && FieldOf(e, DATA) == e.data && FieldOf(e, PREV_HASH) == Str(e.prevHash)
  {
    hide FromInt;
  }

  lemma FieldNames()
    ensures Field(SEQ) && Field(TIMESTAMP) && Field(TYPE) && Field(INTENT_ID) && Field(AGENT_ID) && Field(DATA) && Field(PREV_HASH)
  {
  }

  lemma FieldsAgree(a: Entry, b: Entry, key: JsString)
    requires Norm(Contents(a)) == Norm(Contents(b)) && Field(key)
    ensures Norm(FieldOf(a, key)) == Norm(FieldOf(b, key))
  {
    hide Norm, FromInt;
    NormOfObj(Contents(a).props);
    NormOfObj(Contents(b).props);
    var pa, pb := NormProps(Contents(a).props), NormProps(Contents(b).props);
    assert key in pa <==> FieldOf(a, key) != Undefined;
    assert key in pb <==> FieldOf(b, key) != Undefined;
  }

  lemma NormOfNumber(n: int)
    ensures Norm(Num(FromInt(n))) == Num(FromInt(n))
  {
    hide WithoutTrailing, DecimalUnits;
  }

  lemma NormOfStrings(a: JsString, b: JsString)
    requires Norm(Str(a)) == Norm(Str(b))
    ensures a == b
  {
  }

  lemma NormOfOptionals(a: Option<JsString>, b: Option<JsString>)
    requires Norm(Optional(a)) == Norm(Optional(b))
    ensures a == b
  {
  }

  lemma NormOfNumbers(a: int, b: int)
    requires Norm(Num(FromInt(a))) == Norm(Num(FromInt(b)))
    ensures a == b
  {
    hide FromInt;
    NormOfNumber(a);
    NormOfNumber(b);
    FromIntIsInjective(a, b);
  }

  lemma SameNormSameContents(a: Entry, b: Entry)
    requires Norm(Contents(a)) == Norm(Contents(b))
    ensures SameContents(a, b)
  {
    hide Contents, FieldOf, Field, FromInt, Norm, Optional;
    FieldNames();
    FieldsOf(a);
    FieldsOf(b);
    FieldsAgree(a, b, SEQ);
    FieldsAgree(a, b, TIMESTAMP);
    FieldsAgree(a, b, TYPE);
    FieldsAgree(a, b, INTENT_ID);
    FieldsAgree(a, b, AGENT_ID);
    FieldsAgree(a, b, DATA);
    FieldsAgree(a, b, PREV_HASH);
    NormOfNumbers(a.number, b.number);
    NormOfStrings(a.timestamp, b.timestamp);
    NormOfStrings(a.kind, b.kind);
    NormOfStrings(a.prevHash, b.prevHash);
    NormOfOptionals(a.intentId, b.intentId);
    NormOfOptionals(a.agentId, b.agentId);
  }

  /** Without collisions, equal entry hashes mean equal entries. */
  lemma HashDetermines(sha: Sha, a: Entry, b: Entry)
    requires CollisionFree(sha) && EntryHash(sha, a).Some? && EntryHash(sha, a) == EntryHash(sha, b)
    ensures SameContents(a, b)
  {
    hide Contents, SameContents, Norm, Accepted, Text;
    CanonicalIsInjective(Contents(a), Contents(b));
    SameNormSameContents(a, b);
  }

  // ---------- Verification ----------

  datatype Problem = Fork | Gap | BrokenLink | NotCanonical | Tampered | HeadMismatch

  /** `at` is the sequence number reported for the first bad entry. */
  datatype Verdict = Intact(entries: nat) | Bad(problem: Problem, entries: nat, at: Option<int>)

  datatype Head = Head(number: int, hash: JsString, entries: int)

  datatype Tip = Tip(number: int, hash: JsString)

  const NO_TIP := Tip(-1, GENESIS_HASH)

  function TipOf(entries: seq<Entry>): Tip {
    if entries == [] then NO_TIP else Tip(entries[|entries| - 1].number, entries[|entries| - 1].hash)
  }

  /** What is wrong with an entry that should extend this tip. */
  function EntryProblem(sha: Sha, tip: Tip, e: Entry): Option<Problem> {
    if e.number <= tip.number then Some(Fork)
    else if e.number > tip.number + 1 then Some(Gap)
    else if e.prevHash != tip.hash then Some(BrokenLink)
    else if EntryHash(sha, e).None? then Some(NotCanonical)
    else if EntryHash(sha, e).value != e.hash then Some(Tampered)
    else None
  }

  /** The first entry that does not extend the ones before it. */
  function FirstBad(sha: Sha, entries: seq<Entry>): Option<(nat, Problem)> {
    if entries == [] then None
    else
      var n := |entries| - 1;
      var earlier := FirstBad(sha, entries[..n]);
      if earlier.Some? then earlier
      else
        var problem := EntryProblem(sha, TipOf(entries[..n]), entries[n]);
        if problem.Some? then Some((n, problem.value)) else None
  }

  predicate Matches(entries: seq<Entry>, expected: Option<Head>) {
    expected.Some? ==> |entries| == expected.value.entries && TipOf(entries).hash == expected.value.hash
  }

  /** One chain: numbered from zero, each entry naming its predecessor's hash, each hash right. */
  predicate Chain(sha: Sha, entries: seq<Entry>) {
    forall i :: 0 <= i < |entries| ==> Extends(sha, TipOf(entries[..i]), entries[i], i)
  }

  predicate Extends(sha: Sha, tip: Tip, e: Entry, i: nat) {
    e.number == i && tip.number == i - 1 && e.prevHash == tip.hash && EntryHash(sha, e) == Some(e.hash)
  }

  lemma {:induction false} IntactIsChain(sha: Sha, entries: seq<Entry>)
    ensures FirstBad(sha, entries).None? <==> Chain(sha, entries)
  {
    hide EntryHash;
    if entries != [] {
      var n := |entries| - 1;
      IntactIsChain(sha, entries[..n]);
      ChainSnoc(sha, entries);
      if Chain(sha, entries[..n]) {
        ChainTip(sha, entries[..n]);
      }
    }
  }

  lemma ChainSnoc(sha: Sha, entries: seq<Entry>)
    requires entries != []
    ensures var n := |entries| - 1;
      Chain(sha, entries) <==> Chain(sha, entries[..n]) && Extends(sha, TipOf(entries[..n]), entries[n], n)
  {
    hide EntryHash, Extends, TipOf;
    var n := |entries| - 1;
    assert forall i :: 0 <= i <= n ==> entries[..n][..i] == entries[..i];
  }

  lemma ChainTip(sha: Sha, entries: seq<Entry>)
    requires Chain(sha, entries)
    ensures TipOf(entries).number == |entries| - 1
  {
    if entries != [] {
      assert Extends(sha, TipOf(entries[..|entries| - 1]), entries[|entries| - 1], |entries| - 1);
    }
  }

  function Verification(sha: Sha, entries: seq<Entry>, expected: Option<Head>): Verdict {
    var bad := FirstBad(sha, entries);
    if bad.Some? then Bad(bad.value.1, |entries|, if bad.value.0 < |entries| then Some(entries[bad.value.0].number) else None)
    else if !Matches(entries, expected) then Bad(HeadMismatch, |entries|, None)
    else Intact(|entries|)
  }

  lemma {:induction false} FirstBadExtends(sha: Sha, entries: seq<Entry>, i: nat)
    requires i <= |entries| && FirstBad(sha, entries[..i]).Some?
    ensures FirstBad(sha, entries) == FirstBad(sha, entries[..i]) && FirstBad(sha, entries).value.0 < i
    decreases |entries|
  {
    hide EntryProblem;
    if i == |entries| {
      assert entries[..i] == entries;
      FirstBadIsInside(sha, entries);
    } else {
      var n := |entries| - 1;
      assert entries[..n][..i] == entries[..i];
      FirstBadExtends(sha, entries[..n], i);
    }
  }

  lemma {:induction false} FirstBadIsInside(sha: Sha, entries: seq<Entry>)
    ensures FirstBad(sha, entries).Some? ==> FirstBad(sha, entries).value.0 < |entries|
  {
    hide EntryProblem;
    if entries != [] {
      FirstBadIsInside(sha, entries[..|entries| - 1]);
    }
  }

  // ---------- What the verdict means ----------

  function HashBefore(entries: seq<Entry>, n: nat): JsString
    requires n <= |entries|
  {
    if n == 0 then GENESIS_HASH else entries[n - 1].hash
  }

  predicate Right(sha: Sha, entries: seq<Entry>, n: nat)
    requires n < |entries|
  {
    entries[n].number == n && entries[n].prevHash == HashBefore(entries, n) && EntryHash(sha, entries[n]) == Some(entries[n].hash)
  }

  /** The problem reported for entry n: a repeated number, a skipped one, a link to another
      predecessor, contents that have no canonical text, or contents that do not give the hash. */
  predicate Wrong(sha: Sha, entries: seq<Entry>, n: nat, problem: Problem)
    requires n < |entries|
  {
    match problem
    case Fork => entries[n].number < n
    case Gap => entries[n].number > n
    case BrokenLink => entries[n].number == n && entries[n].prevHash != HashBefore(entries, n)
    case NotCanonical => entries[n].number == n && entries[n].prevHash == HashBefore(entries, n) && EntryHash(sha, entries[n]) == None
    case Tampered =>
      && entries[n].number == n && entries[n].prevHash == HashBefore(entries, n)
      && EntryHash(sha, entries[n]) != None && EntryHash(sha, entries[n]) != Some(entries[n].hash)
    case HeadMismatch => false
  }

  predicate AllRight(sha: Sha, entries: seq<Entry>, n: nat)
    requires n <= |entries|
  {
    forall i :: 0 <= i < n ==> Right(sha, entries, i)
  }

  lemma RightTip(sha: Sha, entries: seq<Entry>, n: nat)
    requires n <= |entries| && AllRight(sha, entries, n)
    ensures TipOf(entries[..n]) == Tip(n - 1, HashBefore(entries, n))
  {
    hide EntryHash;
    if n > 0 {
      assert Right(sha, entries, n - 1) && entries[..n][n - 1] == entries[n - 1];
    }
  }

  lemma {:induction false} FirstBadMeans(sha: Sha, entries: seq<Entry>, n: nat)
    requires n <= |entries|
    ensures FirstBad(sha, entries[..n]).None? <==> AllRight(sha, entries, n)
    ensures FirstBad(sha, entries[..n]).Some? ==>
      var (at, problem) := FirstBad(sha, entries[..n]).value;
      at < n && AllRight(sha, entries, at) && Wrong(sha, entries, at, problem)
  {
    if n > 0 {
      hide EntryHash, EntryProblem, Right, Wrong, TipOf;
      var m := n - 1;
      FirstBadMeans(sha, entries, m);
      assert entries[..n][..m] == entries[..m] && entries[..n][m] == entries[m];
      AllRightSnoc(sha, entries, m);
      if AllRight(sha, entries, m) {
        RightTip(sha, entries, m);
        ProblemMeans(sha, entries, m);
      }
    }
  }

  lemma AllRightSnoc(sha: Sha, entries: seq<Entry>, m: nat)
    requires m < |entries|
    ensures AllRight(sha, entries, m + 1) <==> AllRight(sha, entries, m) && Right(sha, entries, m)
  {
    hide Right;
  }

  lemma ProblemMeans(sha: Sha, entries: seq<Entry>, n: nat)
    requires n < |entries|
    ensures var problem := EntryProblem(sha, Tip(n - 1, HashBefore(entries, n)), entries[n]);
      && (problem.None? <==> Right(sha, entries, n))
      && (problem.Some? ==> Wrong(sha, entries, n, problem.value))
  {
    hide EntryHash;
  }

  predicate FirstWrong(sha: Sha, entries: seq<Entry>, n: nat, problem: Problem)
    requires n < |entries|
  {
    AllRight(sha, entries, n) && Wrong(sha, entries, n, problem)
  }

  /** Verification accepts exactly the ledgers whose every entry is right and that end in the
      retained head, if one was given; otherwise it names the first wrong entry by its number
      and says what is wrong with it, and only then complains of the head. */
  lemma VerdictMeans(sha: Sha, entries: seq<Entry>, expected: Option<Head>)
    ensures var v := Verification(sha, entries, expected);
      var ends := expected.Some? ==> |entries| == expected.value.entries && HashBefore(entries, |entries|) == expected.value.hash;
      && (v.Intact? <==> AllRight(sha, entries, |entries|) && ends)
      && (v.Bad? && v.problem.HeadMismatch? <==> AllRight(sha, entries, |entries|) && !ends)
      && (v.Bad? && !v.problem.HeadMismatch? ==>
          exists n :: 0 <= n < |entries| && FirstWrong(sha, entries, n, v.problem) && v.at == Some(entries[n].number))
  {
    hide EntryHash, FirstBad, Right, Wrong;
    FirstBadMeans(sha, entries, |entries|);
    assert entries[..|entries|] == entries;
    if FirstBad(sha, entries).Some? {
      var (at, problem) := FirstBad(sha, entries).value;
      NotHead(sha, entries, at, problem);
      assert FirstWrong(sha, entries, at, problem);
    }
  }

  lemma NotHead(sha: Sha, entries: seq<Entry>, n: nat, problem: Problem)
    requires n < |entries| && Wrong(sha, entries, n, problem)
    ensures !problem.HeadMismatch? && !Right(sha, entries, n)
  {
    hide EntryHash;
  }

  method Verify(sha: Sha, entries: seq<Entry>, expected: Option<Head>) returns (verdict: Verdict)
    ensures verdict == Verification(sha, entries, expected)
  {
    hide EntryHash, FirstBad;
    var prevHash, prevSeq := GENESIS_HASH, -1;
    FirstBadOfNone(sha);
    var i := 0;
    while i < |entries|
      invariant 0 <= i <= |entries|
      invariant Tip(prevSeq, prevHash) == TipOf(entries[..i])
      invariant FirstBad(sha, entries[..i]).None?
    {
      var entry := entries[i];
      FirstBadNext(sha, entries, i);
      if entry.number <= prevSeq {
        return Bad(Fork, |entries|, Some(entry.number));
      }
      if entry.number > prevSeq + 1 {
        return Bad(Gap, |entries|, Some(entry.number));
      }
      if entry.prevHash != prevHash {
        return Bad(BrokenLink, |entries|, Some(entry.number));
      }
      var recomputed := EntryHash(sha, entry);
      if recomputed.None? {
        return Bad(NotCanonical, |entries|, Some(entry.number));
      }
      if recomputed.value != entry.hash {
        return Bad(Tampered, |entries|, Some(entry.number));
      }
      prevHash, prevSeq := entry.hash, entry.number;
      i := i + 1;
    }
    assert entries[..|entries|] == entries;
    if expected.Some? {
      if |entries| != expected.value.entries || prevHash != expected.value.hash {
        return Bad(HeadMismatch, |entries|, None);
      }
    }
    return Intact(|entries|);
  }

  lemma FirstBadOfNone(sha: Sha)
    ensures FirstBad(sha, []).None?
  {
  }

  lemma FirstBadNext(sha: Sha, entries: seq<Entry>, i: nat)
    requires i < |entries| && FirstBad(sha, entries[..i]).None?
    ensures var problem := EntryProblem(sha, TipOf(entries[..i]), entries[i]);
      && (problem.None? ==> FirstBad(sha, entries[..i + 1]).None?)
      && (problem.Some? ==> FirstBad(sha, entries) == Some((i, problem.value)))
  {
    hide EntryProblem, TipOf;
    assert entries[..i + 1][..i] == entries[..i];
    if FirstBad(sha, entries[..i + 1]).Some? {
      FirstBadExtends(sha, entries, i + 1);
    }
  }

  /** The retained head over a well-numbered ledger; a miscounted one is refused. */
  function HeadOf(entries: seq<Entry>): Option<Head> {
    if entries != [] && |entries| != entries[|entries| - 1].number + 1 then None
    else Some(Head(TipOf(entries).number, TipOf(entries).hash, |entries|))
  }

  lemma ChainHasHead(sha: Sha, entries: seq<Entry>)
    requires Chain(sha, entries)
    ensures HeadOf(entries).Some? && Verification(sha, entries, HeadOf(entries)) == Intact(|entries|)
  {
    hide FirstBad;
    ChainTip(sha, entries);
    IntactIsChain(sha, entries);
  }

  /** Two ledgers that verify against one retained head are the same, entry by entry. */
  lemma {:induction false} HeadPinsHistory(sha: Sha, a: seq<Entry>, b: seq<Entry>)
    requires CollisionFree(sha) && Chain(sha, a) && Chain(sha, b)
    requires |a| == |b| && TipOf(a).hash == TipOf(b).hash
    ensures forall i :: 0 <= i < |a| ==> SameContents(a[i], b[i]) && a[i].hash == b[i].hash
  {
    hide EntryHash, SameContents, Chain, TipOf;
    if a != [] {
      var n := |a| - 1;
      TopEntry(sha, a);
      TopEntry(sha, b);
      HashDetermines(sha, a[n], b[n]);
      SameLink(a[n], b[n]);
      HeadPinsHistory(sha, a[..n], b[..n]);
      forall i | 0 <= i < n
        ensures SameContents(a[i], b[i]) && a[i].hash == b[i].hash
      {
        assert a[..n][i] == a[i] && b[..n][i] == b[i];
      }
    }
  }

  lemma TopEntry(sha: Sha, entries: seq<Entry>)
    requires Chain(sha, entries) && entries != []
    ensures var n := |entries| - 1; var top := entries[n];
      && Chain(sha, entries[..n]) && EntryHash(sha, top) == Some(top.hash)
      && top.prevHash == TipOf(entries[..n]).hash && TipOf(entries).hash == top.hash
  {
    hide EntryHash, Chain;
    ChainSnoc(sha, entries);
  }

  lemma SameLink(a: Entry, b: Entry)
    requires SameContents(a, b)
    ensures a.prevHash == b.prevHash
  {
  }

  lemma VerifiedAgainstOneHead(sha: Sha, a: seq<Entry>, b: seq<Entry>, head: Head)
    requires CollisionFree(sha)
    requires Verification(sha, a, Some(head)).Intact? && Verification(sha, b, Some(head)).Intact?
    ensures |a| == |b| && forall i :: 0 <= i < |a| ==> SameContents(a[i], b[i]) && a[i].hash == b[i].hash
  {
    hide FirstBad, Chain, SameContents;
    IntactIsChain(sha, a);
    IntactIsChain(sha, b);
    HeadPinsHistory(sha, a, b);
  }
}

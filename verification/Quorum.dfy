/** Cosignature verification, party grouping and the quorum check. */
module Quorum {
  import opened Prelude
  import opened Merkle
  import opened SignedNote
  import Text

  const TIMESTAMP_BYTES: nat := 8
  const ED25519_SIG_BYTES: nat := 64
  const MLDSA44_SIGNATURE_BYTES: nat := 2420

  /** A configured witness; an unusable key is an absent one. */
  datatype KnownWitness = KnownWitness(name: string, ed25519: Option<Key>, mlDsa44: Option<Key>)

  datatype Algorithm = Ed25519 | MlDsa44

  datatype VerifiedCosignature = VerifiedCosignature(name: string, timestamp: nat, alg: Algorithm)

  datatype VerifyOptions = VerifyOptions(nowSeconds: Number, maxAge: Number, skew: Number, pqAvailable: bool)

  datatype TimeBounds = TimeBounds(now: int, skew: real, maxAge: Option<real>)

  /** The bounds to use, or none when the clock or a bound is unusable (nothing verifies). */
  function BoundsOf(opts: VerifyOptions): Option<TimeBounds> {
    if !opts.nowSeconds.Finite? then None
    else if !opts.skew.Finite? || opts.skew.value < 0.0 then None
    else match opts.maxAge
      case NotANumber => None
      case Infinite(positive) => if positive then Some(TimeBounds(opts.nowSeconds.value.Floor, opts.skew.value, None)) else None
      case Finite(age) => if age < 0.0 then None else Some(TimeBounds(opts.nowSeconds.value.Floor, opts.skew.value, Some(age)))
  }

  predicate TimestampAcceptable(timestamp: nat, bounds: TimeBounds) {
    && timestamp as real <= bounds.now as real + bounds.skew
    && (bounds.maxAge.Some? ==> timestamp as real >= bounds.now as real - bounds.maxAge.value)
  }

  function BigEndian(bytes: seq<Byte>): nat {
    if bytes == [] then 0 else BigEndian(bytes[..|bytes| - 1]) * 256 + bytes[|bytes| - 1]
  }

  // ---------- One witness, one algorithm ----------

  /** Length prefixes of one byte bound the names an ML-DSA-44 payload can carry. */
  predicate PayloadNamesFit(name: string, origin: string) {
    1 <= NameBytes(name) <= 255 && 1 <= NameBytes(origin) <= 255
  }

  /** Bytes of a name in UTF-8; its characters are code points. */
  function NameBytes(name: string): nat {
    if name == "" then 0 else Text.Utf8Width(name[0] as nat) + NameBytes(name[1..])
  }

  /** The timestamp a signature line carries for this key, if the line verifies. */
  function LineTimestamp(crypto: Crypto, parsed: ParsedNote, name: string, key: Key, alg: Algorithm,
                         bounds: TimeBounds, sig: NoteSignature): Option<nat> {
    var sigType := if alg.Ed25519? then SIG_TYPE_COSIGNATURE_V1 else SIG_TYPE_COSIGNATURE_MLDSA44;
    var sigBytes := if alg.Ed25519? then ED25519_SIG_BYTES else MLDSA44_SIGNATURE_BYTES;
    if sig.name != name || sig.keyId != crypto.keyId(name, sigType, key) then None
    else if |sig.signature| != TIMESTAMP_BYTES + sigBytes then None
    else
      var timestamp := BigEndian(sig.signature[..TIMESTAMP_BYTES]);
      if timestamp > MAX_SAFE_INTEGER || !TimestampAcceptable(timestamp, bounds) then None
      else
        var cp := parsed.body.checkpoint;
        if alg.MlDsa44? && !PayloadNamesFit(name, cp.origin) then None
        else
          var message := CosignedMessage(alg, name, timestamp, parsed.body);
          if crypto.verify(key, message, sig.signature[TIMESTAMP_BYTES..]) then Some(timestamp) else None
  }

  /** Ed25519 covers the whole body; ML-DSA-44 covers origin, size and root only. */
  function CosignedMessage(alg: Algorithm, name: string, timestamp: nat, body: Body): Message {
    var cp := body.checkpoint;
    if alg.Ed25519? then Cosigned(timestamp, body)
    else SubtreeSigned(name, timestamp, cp.origin, cp.treeSize, cp.rootHash)
  }

  /** The first line that verifies wins. */
  function FirstTimestamp(crypto: Crypto, parsed: ParsedNote, name: string, key: Key, alg: Algorithm,
                          bounds: TimeBounds, sigs: seq<NoteSignature>): Option<nat> {
    if sigs == [] then None
    else
      var t := LineTimestamp(crypto, parsed, name, key, alg, bounds, sigs[0]);
      if t.Some? then t else FirstTimestamp(crypto, parsed, name, key, alg, bounds, sigs[1..])
  }

  function CosignatureOf(crypto: Crypto, parsed: ParsedNote, w: KnownWitness, alg: Algorithm, bounds: TimeBounds): seq<VerifiedCosignature> {
    var key := if alg.Ed25519? then w.ed25519 else w.mlDsa44;
    if key.None? then []
    else
      var t := FirstTimestamp(crypto, parsed, w.name, key.value, alg, bounds, parsed.signatures);
      if t.None? then [] else [VerifiedCosignature(w.name, t.value, alg)]
  }

  method VerifyOneCosignature(crypto: Crypto, parsed: ParsedNote, w: KnownWitness, alg: Algorithm, bounds: TimeBounds)
    returns (found: seq<VerifiedCosignature>)
    ensures found == CosignatureOf(crypto, parsed, w, alg, bounds)
  {
    var key := if alg.Ed25519? then w.ed25519 else w.mlDsa44;
    if key.None? {
      return [];
    }
    var i := 0;
    while i < |parsed.signatures|
      invariant 0 <= i <= |parsed.signatures|
      invariant FirstTimestamp(crypto, parsed, w.name, key.value, alg, bounds, parsed.signatures)
        == FirstTimestamp(crypto, parsed, w.name, key.value, alg, bounds, parsed.signatures[i..])
    {
      var t := LineTimestamp(crypto, parsed, w.name, key.value, alg, bounds, parsed.signatures[i]);
      if t.Some? {
        return [VerifiedCosignature(w.name, t.value, alg)];
      }
      i := i + 1;
    }
    return [];
  }

  // ---------- All witnesses ----------

  function CosignaturesOf(crypto: Crypto, parsed: ParsedNote, w: KnownWitness, bounds: TimeBounds, pq: bool): seq<VerifiedCosignature> {
    CosignatureOf(crypto, parsed, w, Ed25519, bounds)
    + if pq then CosignatureOf(crypto, parsed, w, MlDsa44, bounds) else []
  }

  function AllCosignatures(crypto: Crypto, parsed: ParsedNote, witnesses: seq<KnownWitness>, bounds: TimeBounds, pq: bool, seen: set<string>): seq<VerifiedCosignature> {
    if witnesses == [] then []
    else if witnesses[0].name in seen then AllCosignatures(crypto, parsed, witnesses[1..], bounds, pq, seen)
    else
      var rest := AllCosignatures(crypto, parsed, witnesses[1..], bounds, pq, seen + {witnesses[0].name});
      CosignaturesOf(crypto, parsed, witnesses[0], bounds, pq) + rest
  }

  function VerifiedCosignatures(crypto: Crypto, note: NoteText, witnesses: seq<KnownWitness>, opts: VerifyOptions): seq<VerifiedCosignature> {
    var parsed, bounds := Parse(note), BoundsOf(opts);
    if parsed.None? || bounds.None? then []
    else AllCosignatures(crypto, parsed.value, witnesses, bounds.value, opts.pqAvailable, {})
  }

  method VerifyCosignatures(crypto: Crypto, note: NoteText, witnesses: seq<KnownWitness>, opts: VerifyOptions)
    returns (verified: seq<VerifiedCosignature>)
    ensures verified == VerifiedCosignatures(crypto, note, witnesses, opts)
  {
    hide *;
    VerifiedUnfolds(crypto, note, witnesses, opts);
    var parsed, bounds := Parse(note), BoundsOf(opts);
    if parsed.None? || bounds.None? {
      return [];
    }
    var pq := opts.pqAvailable;
    ghost var goal := AllCosignatures(crypto, parsed.value, witnesses, bounds.value, pq, {});
    var seen: set<string> := {};
    verified := [];
    var i := 0;
    while i < |witnesses|
      invariant 0 <= i <= |witnesses|
      invariant goal == verified + AllCosignatures(crypto, parsed.value, witnesses[i..], bounds.value, pq, seen)
    {
      var w := witnesses[i];
      if w.name !in seen {
        var ed := VerifyOneCosignature(crypto, parsed.value, w, Ed25519, bounds.value);
        var ml := [];
        if pq {
          ml := VerifyOneCosignature(crypto, parsed.value, w, MlDsa44, bounds.value);
        }
        ScanNew(crypto, parsed.value, witnesses, i, bounds.value, pq, seen, verified, ed, ml);
        seen := seen + {w.name};
        verified := verified + (ed + ml);
      } else {
        ScanSeen(crypto, parsed.value, witnesses, i, bounds.value, pq, seen);
      }
      i := i + 1;
    }
    ScanEnds(crypto, parsed.value, witnesses[i..], bounds.value, pq, seen);
  }

  lemma VerifiedUnfolds(crypto: Crypto, note: NoteText, witnesses: seq<KnownWitness>, opts: VerifyOptions)
    ensures VerifiedCosignatures(crypto, note, witnesses, opts) ==
      if Parse(note).None? || BoundsOf(opts).None? then []
      else AllCosignatures(crypto, Parse(note).value, witnesses, BoundsOf(opts).value, opts.pqAvailable, {})
  {
  }

  lemma ScanNew(crypto: Crypto, parsed: ParsedNote, witnesses: seq<KnownWitness>, i: nat, bounds: TimeBounds, pq: bool,
                seen: set<string>, verified: seq<VerifiedCosignature>, ed: seq<VerifiedCosignature>, ml: seq<VerifiedCosignature>)
    requires i < |witnesses| && witnesses[i].name !in seen
    requires ed == CosignatureOf(crypto, parsed, witnesses[i], Ed25519, bounds)
    requires ml == if pq then CosignatureOf(crypto, parsed, witnesses[i], MlDsa44, bounds) else []
    ensures verified + AllCosignatures(crypto, parsed, witnesses[i..], bounds, pq, seen)
      == verified + (ed + ml) + AllCosignatures(crypto, parsed, witnesses[i + 1..], bounds, pq, seen + {witnesses[i].name})
  {
    hide CosignatureOf;
    assert witnesses[i..][1..] == witnesses[i + 1..];
  }

  lemma ScanSeen(crypto: Crypto, parsed: ParsedNote, witnesses: seq<KnownWitness>, i: nat, bounds: TimeBounds, pq: bool, seen: set<string>)
    requires i < |witnesses| && witnesses[i].name in seen
    ensures AllCosignatures(crypto, parsed, witnesses[i..], bounds, pq, seen)
      == AllCosignatures(crypto, parsed, witnesses[i + 1..], bounds, pq, seen)
  {
    hide CosignatureOf;
    assert witnesses[i..][1..] == witnesses[i + 1..];
  }

  lemma ScanEnds(crypto: Crypto, parsed: ParsedNote, rest: seq<KnownWitness>, bounds: TimeBounds, pq: bool, seen: set<string>)
    requires rest == []
    ensures AllCosignatures(crypto, parsed, rest, bounds, pq, seen) == []
  {
  }

  // ---------- Parties ----------

  datatype Fingerprint = Fingerprint(alg: Algorithm, key: Key)

  function KeyFingerprints(w: KnownWitness): seq<Fingerprint> {
    (if w.ed25519.Some? then [Fingerprint(Ed25519, w.ed25519.value)] else [])
    + if w.mlDsa44.Some? then [Fingerprint(MlDsa44, w.mlDsa44.value)] else []
  }

  datatype Grouping = Grouping(fpToParty: map<Fingerprint, nat>, nameToParty: map<string, nat>, parties: nat)

  /** The party of the first fingerprint already known. */
  function KnownParty(g: Grouping, fps: seq<Fingerprint>): Option<nat> {
    if fps == [] then None
    else if fps[0] in g.fpToParty then Some(g.fpToParty[fps[0]])
    else KnownParty(g, fps[1..])
  }

  function Record(m: map<Fingerprint, nat>, fps: seq<Fingerprint>, party: nat): (r: map<Fingerprint, nat>)
    ensures forall fp :: fp in r <==> fp in m || fp in fps
    ensures forall fp :: fp in r ==> r[fp] == if fp in fps then party else m[fp]
  {
    if fps == [] then m else Record(m, fps[1..], party)[fps[0] := party]
  }

  function GroupStep(g: Grouping, w: KnownWitness): Grouping {
    var fps := KeyFingerprints(w);
    if fps == [] then g
    else
      var known := KnownParty(g, fps);
      var party := if known.Some? then known.value else g.parties;
      Grouping(Record(g.fpToParty, fps, party), g.nameToParty[w.name := party],
               if known.Some? then g.parties else g.parties + 1)
  }

  const NO_PARTIES := Grouping(map[], map[], 0)

  function GroupParties(unique: seq<KnownWitness>): Grouping {
    if unique == [] then NO_PARTIES
    else GroupStep(GroupParties(unique[..|unique| - 1]), unique[|unique| - 1])
  }

  method GroupPartiesLoop(unique: seq<KnownWitness>) returns (g: Grouping)
    ensures g == GroupParties(unique)
  {
    var fpToParty: map<Fingerprint, nat>, nameToParty: map<string, nat>, next := map[], map[], 0;
    var i := 0;
    while i < |unique|
      invariant 0 <= i <= |unique|
      invariant Grouping(fpToParty, nameToParty, next) == GroupParties(unique[..i])
    {
      var w := unique[i];
      assert unique[..i + 1][..i] == unique[..i];
      var fps := KeyFingerprints(w);
      i := i + 1;
      if fps == [] {
        continue;
      }
      ghost var g0 := Grouping(fpToParty, nameToParty, next);
      var party: Option<nat> := None;
      var j := 0;
      while j < |fps|
        invariant 0 <= j <= |fps| && party.None?
        invariant KnownParty(g0, fps) == KnownParty(g0, fps[j..])
      {
        if fps[j] in fpToParty {
          party := Some(fpToParty[fps[j]]);
          break;
        }
        j := j + 1;
      }
      assert party == KnownParty(g0, fps);
      if party.None? {
        party, next := Some(next), next + 1;
      }
      fpToParty := Record(fpToParty, fps, party.value);
      nameToParty := nameToParty[w.name := party.value];
    }
    assert unique[..|unique|] == unique;
    g := Grouping(fpToParty, nameToParty, next);
  }

  // ---------- The quorum check ----------

  datatype LogBinding = LogBinding(origin: string, logKey: Key, logKeyName: Option<string>)

  function UniqueByName(witnesses: seq<KnownWitness>): seq<KnownWitness> {
    if witnesses == [] then []
    else
      var before, w := UniqueByName(witnesses[..|witnesses| - 1]), witnesses[|witnesses| - 1];
      if exists i :: 0 <= i < |before| && before[i].name == w.name then before else before + [w]
  }

  predicate DistinctNames(ws: seq<KnownWitness>) {
    forall i, j :: 0 <= i < j < |ws| ==> ws[i].name != ws[j].name
  }

  lemma {:induction false} UniqueNamesAreDistinct(witnesses: seq<KnownWitness>)
    ensures DistinctNames(UniqueByName(witnesses))
  {
    if witnesses != [] {
      UniqueNamesAreDistinct(witnesses[..|witnesses| - 1]);
    }
  }

  method UniqueByNameLoop(witnesses: seq<KnownWitness>) returns (unique: seq<KnownWitness>)
    ensures unique == UniqueByName(witnesses)
  {
    unique := [];
    var names: set<string> := {};
    var i := 0;
    while i < |witnesses|
      invariant 0 <= i <= |witnesses|
      invariant unique == UniqueByName(witnesses[..i])
      invariant names == set w | w in unique :: w.name
    {
      var w := witnesses[i];
      assert witnesses[..i + 1][..i] == witnesses[..i];
      if w.name !in names {
        unique := unique + [w];
        names := names + {w.name};
      }
      i := i + 1;
    }
    assert witnesses[..|witnesses|] == witnesses;
  }

  function PartiesOf(verified: seq<VerifiedCosignature>, g: Grouping): set<nat> {
    set v | v in verified && v.name in g.nameToParty :: g.nameToParty[v.name]
  }

  lemma NoCosignatures(g: Grouping)
    ensures PartiesOf([], g) == {}
  {
  }

  lemma OneMoreCosignature(verified: seq<VerifiedCosignature>, i: nat, g: Grouping)
    requires i < |verified|
    ensures PartiesOf(verified[..i + 1], g) == PartiesOf(verified[..i], g)
      + if verified[i].name in g.nameToParty then {g.nameToParty[verified[i].name]} else {}
  {
    assert verified[..i + 1] == verified[..i] + [verified[i]];
  }

  /** The parties of this witness list that verifiably cosigned the note. */
  function CosigningParties(crypto: Crypto, note: NoteText, witnesses: seq<KnownWitness>, opts: VerifyOptions): set<nat> {
    var unique := UniqueByName(witnesses);
    PartiesOf(VerifiedCosignatures(crypto, note, unique, opts), GroupParties(unique))
  }

  function PartyCount(witnesses: seq<KnownWitness>): nat {
    GroupParties(UniqueByName(witnesses)).parties
  }

  /** The note is bound to this log, and at least k parties cosigned it. */
  predicate QuorumReached(crypto: Crypto, note: NoteText, witnesses: seq<KnownWitness>, k: int, binding: LogBinding, opts: VerifyOptions) {
    && binding.origin != "" && binding.logKey != ""
    && SafeSize(k) && k <= PartyCount(witnesses)
    && Parse(note).Some?
    && Parse(note).value.body.checkpoint.origin == binding.origin
    && LogSigned(crypto, Parse(note).value, if binding.logKeyName.Some? then binding.logKeyName.value else binding.origin, binding.logKey)
    && |CosigningParties(crypto, note, witnesses, opts)| >= k
  }

  method CheckCosignatureQuorum(crypto: Crypto, note: NoteText, witnesses: seq<KnownWitness>, k: int, binding: LogBinding, opts: VerifyOptions)
    returns (ok: bool, checkpoint: Option<Checkpoint>)
    ensures ok == QuorumReached(crypto, note, witnesses, k, binding, opts)
    ensures checkpoint == if ok then Some(Parse(note).value.body.checkpoint) else None
  {
    hide GroupParties, UniqueByName, VerifiedCosignatures, LogSigned, PartiesOf;
    var unique := UniqueByNameLoop(witnesses);
    var g := GroupPartiesLoop(unique);
    if binding.origin == "" || binding.logKey == "" || !SafeSize(k) || k > g.parties {
      return false, None;
    }
    var parsed := Parse(note);
    if parsed.None? || parsed.value.body.checkpoint.origin != binding.origin {
      return false, None;
    }
    var logName := if binding.logKeyName.Some? then binding.logKeyName.value else binding.origin;
    var signed := VerifyNoteSignature(crypto, parsed.value, logName, binding.logKey);
    if !signed {
      return false, None;
    }
    var verified := VerifyCosignatures(crypto, note, unique, opts);
    var seenParties: set<nat> := {};
    NoCosignatures(g);
    var i := 0;
    while i < |verified|
      invariant 0 <= i <= |verified|
      invariant seenParties == PartiesOf(verified[..i], g)
    {
      OneMoreCosignature(verified, i, g);
      if verified[i].name in g.nameToParty {
        seenParties := seenParties + {g.nameToParty[verified[i].name]};
      }
      i := i + 1;
    }
    assert verified[..|verified|] == verified;
    ok := |seenParties| >= k;
    checkpoint := if ok then Some(parsed.value.body.checkpoint) else None;
  }
}

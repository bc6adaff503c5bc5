/** Which cosignatures count: every one that counts is a line of the note, in time and verified
  under its witness's own key, and every such line counts for its party.
 */
module QuorumMeaning {
  import opened Prelude
  import opened SignedNote
  import opened Quorum
  import opened Parties
  import opened SplitView

  /** The clock and the bounds are usable, and the timestamp lies within them. */
  predicate InTime(opts: VerifyOptions, timestamp: nat) {
    && opts.nowSeconds.Finite? && opts.skew.Finite? && opts.skew.value >= 0.0
    && timestamp as real <= opts.nowSeconds.value.Floor as real + opts.skew.value
    && (opts.maxAge == Infinite(true)
        || (opts.maxAge.Finite? && opts.maxAge.value >= 0.0 && timestamp as real >= opts.nowSeconds.value.Floor as real - opts.maxAge.value))
  }

  function KeyOf(w: KnownWitness, alg: Algorithm): Option<Key> {
    if alg.Ed25519? then w.ed25519 else w.mlDsa44
  }

  /** The line is this witness's cosignature of the body: its name and key id, eight bytes of
      timestamp in time, then a signature of the right length over what that kind of key signs. */
  predicate GoodLine(crypto: Crypto, body: Body, w: KnownWitness, alg: Algorithm, opts: VerifyOptions, sig: NoteSignature) {
    && KeyOf(w, alg).Some?
    && sig.name == w.name
    && sig.keyId == crypto.keyId(w.name, if alg.Ed25519? then 4 else 6, KeyOf(w, alg).value)
    && |sig.signature| == 8 + (if alg.Ed25519? then 64 else 2420)
    && var timestamp := BigEndian(sig.signature[..8]);
    && timestamp <= MAX_SAFE_INTEGER && InTime(opts, timestamp)
    && var cp := body.checkpoint;
    && (alg.MlDsa44? ==> 1 <= NameBytes(w.name) <= 255 && 1 <= NameBytes(cp.origin) <= 255)
    && crypto.verify(KeyOf(w, alg).value,
         if alg.Ed25519? then Cosigned(timestamp, body) else SubtreeSigned(w.name, timestamp, cp.origin, cp.treeSize, cp.rootHash),
         sig.signature[8..])
  }

  /** Line i of a readable note is such a line, for a kind of key this runtime can verify. */
  predicate LineOf(crypto: Crypto, note: NoteText, w: KnownWitness, opts: VerifyOptions, alg: Algorithm, i: nat) {
    && Parse(note).Some? && (alg.Ed25519? || opts.pqAvailable) && i < |Parse(note).value.signatures|
    && GoodLine(crypto, Parse(note).value.body, w, alg, opts, Parse(note).value.signatures[i])
  }

  /** The witness cosigned this note. */
  ghost predicate HasCosigned(crypto: Crypto, note: NoteText, w: KnownWitness, opts: VerifyOptions) {
    exists alg, i :: LineOf(crypto, note, w, opts, alg, i)
  }

  // ---------- Timestamps ----------

  function Pow256(n: nat): nat {
    if n == 0 then 1 else 256 * Pow256(n - 1)
  }

  /** Eight bytes, most significant first. */
  lemma {:induction false} MostSignificantFirst(b: Byte, rest: seq<Byte>)
    ensures BigEndian([b] + rest) == b * Pow256(|rest|) + BigEndian(rest)
  {
    var all := [b] + rest;
    if rest == [] {
      assert all[..0] == [] && BigEndian([]) == 0 && all[0] == b;
      assert BigEndian(all) == BigEndian(all[..0]) * 256 + all[0];
    } else {
      var n := |rest| - 1;
      MostSignificantFirst(b, rest[..n]);
      assert all[..|all| - 1] == [b] + rest[..n] && all[|all| - 1] == rest[n];
      assert BigEndian(all) == BigEndian([b] + rest[..n]) * 256 + rest[n];
      assert (b * Pow256(n)) * 256 == b * Pow256(n + 1);
    }
  }

  // ---------- One line, one witness ----------

  lemma BoundsMean(opts: VerifyOptions, timestamp: nat)
    ensures InTime(opts, timestamp) <==> BoundsOf(opts).Some? && TimestampAcceptable(timestamp, BoundsOf(opts).value)
  {
  }

  lemma LineIffGood(crypto: Crypto, parsed: ParsedNote, w: KnownWitness, alg: Algorithm, opts: VerifyOptions, sig: NoteSignature)
    requires BoundsOf(opts).Some? && KeyOf(w, alg).Some?
    ensures var t := LineTimestamp(crypto, parsed, w.name, KeyOf(w, alg).value, alg, BoundsOf(opts).value, sig);
      && (t.Some? <==> GoodLine(crypto, parsed.body, w, alg, opts, sig))
      && (t.Some? ==> |sig.signature| >= 8 && t.value == BigEndian(sig.signature[..8]))
  {
    if |sig.signature| >= 8 {
      BoundsMean(opts, BigEndian(sig.signature[..8]));
    }
    hide BoundsOf, InTime, TimestampAcceptable, BigEndian, NameBytes;
  }

  predicate SomeGoodLine(crypto: Crypto, body: Body, w: KnownWitness, alg: Algorithm, opts: VerifyOptions, sigs: seq<NoteSignature>) {
    exists i: nat :: i < |sigs| && GoodLine(crypto, body, w, alg, opts, sigs[i])
  }

  lemma {:induction false} FirstIffSome(crypto: Crypto, parsed: ParsedNote, w: KnownWitness, alg: Algorithm, opts: VerifyOptions, sigs: seq<NoteSignature>)
    requires BoundsOf(opts).Some? && KeyOf(w, alg).Some?
    ensures FirstTimestamp(crypto, parsed, w.name, KeyOf(w, alg).value, alg, BoundsOf(opts).value, sigs).Some?
      <==> SomeGoodLine(crypto, parsed.body, w, alg, opts, sigs)
  {
    if sigs != [] {
      hide LineTimestamp, GoodLine, BoundsOf;
      LineIffGood(crypto, parsed, w, alg, opts, sigs[0]);
      FirstIffSome(crypto, parsed, w, alg, opts, sigs[1..]);
      if i: nat :| i < |sigs[1..]| && GoodLine(crypto, parsed.body, w, alg, opts, sigs[1..][i]) {
        assert GoodLine(crypto, parsed.body, w, alg, opts, sigs[i + 1]);
      }
      if i: nat :| i < |sigs| && GoodLine(crypto, parsed.body, w, alg, opts, sigs[i]) {
        assert i > 0 ==> GoodLine(crypto, parsed.body, w, alg, opts, sigs[1..][i - 1]);
      }
    }
  }

  lemma {:induction false} TimestampIsALine(crypto: Crypto, parsed: ParsedNote, w: KnownWitness, alg: Algorithm, opts: VerifyOptions, sigs: seq<NoteSignature>)
    returns (i: nat)
    requires BoundsOf(opts).Some? && KeyOf(w, alg).Some?
    requires FirstTimestamp(crypto, parsed, w.name, KeyOf(w, alg).value, alg, BoundsOf(opts).value, sigs).Some?
    ensures i < |sigs| && GoodLine(crypto, parsed.body, w, alg, opts, sigs[i]) && |sigs[i].signature| >= 8
    ensures FirstTimestamp(crypto, parsed, w.name, KeyOf(w, alg).value, alg, BoundsOf(opts).value, sigs).value == BigEndian(sigs[i].signature[..8])
  {
    hide LineTimestamp, GoodLine, BoundsOf;
    LineIffGood(crypto, parsed, w, alg, opts, sigs[0]);
    if GoodLine(crypto, parsed.body, w, alg, opts, sigs[0]) {
      i := 0;
    } else {
      var j := TimestampIsALine(crypto, parsed, w, alg, opts, sigs[1..]);
      i := j + 1;
    }
  }

  // ---------- All witnesses ----------

  /** Every witness of the list is looked at once. */
  lemma {:induction false} EveryWitnessIsHeard(crypto: Crypto, parsed: ParsedNote, witnesses: seq<KnownWitness>, bounds: TimeBounds, pq: bool,
                                               seen: set<string>, w: KnownWitness, v: VerifiedCosignature)
    requires DistinctNames(witnesses) && w in witnesses && w.name !in seen
    requires v in CosignaturesOf(crypto, parsed, w, bounds, pq)
    ensures v in AllCosignatures(crypto, parsed, witnesses, bounds, pq, seen)
  {
    hide CosignaturesOf;
    if witnesses[0] != w {
      var rest := witnesses[1..];
      assert w in rest && DistinctNames(rest);
      var k :| 0 <= k < |rest| && rest[k] == w;
      assert witnesses[k + 1] == w && witnesses[0].name != w.name;
      if witnesses[0].name in seen {
        EveryWitnessIsHeard(crypto, parsed, rest, bounds, pq, seen, w, v);
      } else {
        EveryWitnessIsHeard(crypto, parsed, rest, bounds, pq, seen + {witnesses[0].name}, w, v);
      }
    }
  }

  /** Every verified cosignature is a good line of the note, with its own timestamp in time. */
  lemma VerifiedIsALine(crypto: Crypto, note: NoteText, witnesses: seq<KnownWitness>, opts: VerifyOptions, v: VerifiedCosignature)
    returns (w: KnownWitness, i: nat)
    requires v in VerifiedCosignatures(crypto, note, witnesses, opts)
    ensures Parse(note).Some? && w in witnesses && w.name == v.name && i < |Parse(note).value.signatures|
    ensures GoodLine(crypto, Parse(note).value.body, w, v.alg, opts, Parse(note).value.signatures[i])
    ensures (v.alg.Ed25519? || opts.pqAvailable) && InTime(opts, v.timestamp)
  {
    hide AllCosignatures, CosignatureOf, BoundsOf, InTime, GoodLine;
    var parsed := Parse(note).value;
    var bounds := BoundsOf(opts).value;
    w := AllCosignaturesMeans(crypto, parsed, witnesses, bounds, opts.pqAvailable, {}, v);
    OnlyAvailable(crypto, parsed, witnesses, bounds, opts.pqAvailable, {}, v);
    i := CosignatureIsALine(crypto, parsed, w, opts, v);
  }

  lemma CosignatureIsALine(crypto: Crypto, parsed: ParsedNote, w: KnownWitness, opts: VerifyOptions, v: VerifiedCosignature) returns (i: nat)
    requires BoundsOf(opts).Some? && v in CosignatureOf(crypto, parsed, w, v.alg, BoundsOf(opts).value)
    ensures i < |parsed.signatures| && GoodLine(crypto, parsed.body, w, v.alg, opts, parsed.signatures[i])
    ensures InTime(opts, v.timestamp)
  {
    hide FirstTimestamp, BoundsOf, InTime;
    i := TimestampIsALine(crypto, parsed, w, v.alg, opts, parsed.signatures);
  }

  lemma {:induction false} OnlyAvailable(crypto: Crypto, parsed: ParsedNote, witnesses: seq<KnownWitness>, bounds: TimeBounds, pq: bool,
                                         seen: set<string>, v: VerifiedCosignature)
    requires v in AllCosignatures(crypto, parsed, witnesses, bounds, pq, seen)
    ensures v.alg.Ed25519? || pq
  {
    if witnesses[0].name in seen {
      OnlyAvailable(crypto, parsed, witnesses[1..], bounds, pq, seen, v);
    } else if v !in CosignaturesOf(crypto, parsed, witnesses[0], bounds, pq) {
      OnlyAvailable(crypto, parsed, witnesses[1..], bounds, pq, seen + {witnesses[0].name}, v);
    } else {
      hide FirstTimestamp;
    }
  }

  lemma CosignedIsVerified(crypto: Crypto, note: NoteText, witnesses: seq<KnownWitness>, opts: VerifyOptions, w: KnownWitness)
    returns (v: VerifiedCosignature)
    requires DistinctNames(witnesses) && w in witnesses && HasCosigned(crypto, note, w, opts)
    ensures v in VerifiedCosignatures(crypto, note, witnesses, opts) && v.name == w.name
  {
    hide AllCosignatures, FirstTimestamp, GoodLine, BoundsOf, DistinctNames;
    var alg: Algorithm, i: nat :| LineOf(crypto, note, w, opts, alg, i);
    var parsed := Parse(note).value;
    GoodLineHas(crypto, parsed.body, w, alg, opts, parsed.signatures[i]);
    var bounds := BoundsOf(opts).value;
    FirstIffSome(crypto, parsed, w, alg, opts, parsed.signatures);
    v := VerifiedCosignature(w.name, FirstTimestamp(crypto, parsed, w.name, KeyOf(w, alg).value, alg, bounds, parsed.signatures).value, alg);
    assert v in CosignatureOf(crypto, parsed, w, alg, bounds);
    EveryWitnessIsHeard(crypto, parsed, witnesses, bounds, opts.pqAvailable, {}, w, v);
  }

  lemma GoodLineHas(crypto: Crypto, body: Body, w: KnownWitness, alg: Algorithm, opts: VerifyOptions, sig: NoteSignature)
    requires GoodLine(crypto, body, w, alg, opts, sig)
    ensures KeyOf(w, alg).Some? && BoundsOf(opts).Some?
  {
    BoundsMean(opts, BigEndian(sig.signature[..8]));
  }

  // ---------- Parties and the quorum ----------

  lemma PartyCounts(verified: seq<VerifiedCosignature>, g: Grouping, v: VerifiedCosignature)
    requires v in verified && v.name in g.nameToParty
    ensures g.nameToParty[v.name] in PartiesOf(verified, g)
  {
  }

  /** Witness w of this list stands for party p and cosigned the note. */
  ghost predicate CosignsFor(crypto: Crypto, note: NoteText, unique: seq<KnownWitness>, opts: VerifyOptions, w: KnownWitness, p: nat) {
    var names := GroupParties(unique).nameToParty;
    w in unique && w.name in names && names[w.name] == p && HasCosigned(crypto, note, w, opts)
  }

  lemma CosignerCounts(crypto: Crypto, note: NoteText, witnesses: seq<KnownWitness>, opts: VerifyOptions, w: KnownWitness, p: nat)
    requires CosignsFor(crypto, note, UniqueByName(witnesses), opts, w, p)
    ensures p in CosigningParties(crypto, note, witnesses, opts)
  {
    hide VerifiedCosignatures, GroupParties, UniqueByName, HasCosigned, PartiesOf;
    var unique := UniqueByName(witnesses);
    UniqueNamesAreDistinct(witnesses);
    var v := CosignedIsVerified(crypto, note, unique, opts, w);
    PartyCounts(VerifiedCosignatures(crypto, note, unique, opts), GroupParties(unique), v);
  }

  /** A party counts exactly when one of its witnesses cosigned the note. */
  lemma CountedIff(crypto: Crypto, note: NoteText, witnesses: seq<KnownWitness>, opts: VerifyOptions, p: nat)
    ensures p in CosigningParties(crypto, note, witnesses, opts)
      <==> exists w :: CosignsFor(crypto, note, UniqueByName(witnesses), opts, w, p)
  {
    hide VerifiedCosignatures, GroupParties, UniqueByName, GoodLine;
    var unique := UniqueByName(witnesses);
    var names := GroupParties(unique).nameToParty;
    UniqueNamesAreDistinct(witnesses);
    GroupingKeepsFacts(unique);
    if p in CosigningParties(crypto, note, witnesses, opts) {
      var v :| v in VerifiedCosignatures(crypto, note, unique, opts) && v.name in names && names[v.name] == p;
      var w, i := VerifiedIsALine(crypto, note, unique, opts, v);
      assert LineOf(crypto, note, w, opts, v.alg, i);
      assert HasCosigned(crypto, note, w, opts);
      assert CosignsFor(crypto, note, unique, opts, w, p);
    }
    if w :| CosignsFor(crypto, note, unique, opts, w, p) {
      CosignerCounts(crypto, note, witnesses, opts, w, p);
    }
  }

  /** Line i of the note is the pinned log's signature over its body. */
  predicate LogLine(crypto: Crypto, note: NoteText, binding: LogBinding, i: nat)
    requires note.Readable?
  {
    var name := if binding.logKeyName.Some? then binding.logKeyName.value else binding.origin;
    && i < |note.signatures| && note.signatures[i].name == name
    && note.signatures[i].keyId == crypto.keyId(name, 1, binding.logKey)
    && crypto.verify(binding.logKey, LogBody(note.body), note.signatures[i].signature)
  }

  /** The note is a readable checkpoint of the log the caller pinned, with its signature on it. */
  predicate BoundTo(crypto: Crypto, note: NoteText, binding: LogBinding) {
    && binding.origin != "" && binding.logKey != ""
    && note.Readable? && WellFormed(note.body) && note.body.checkpoint.origin == binding.origin
    && exists i: nat :: i < |note.signatures| && LogLine(crypto, note, binding, i)
  }

  lemma BoundMeans(crypto: Crypto, note: NoteText, binding: LogBinding)
    ensures BoundTo(crypto, note, binding) <==>
      && binding.origin != "" && binding.logKey != "" && Parse(note).Some?
      && Parse(note).value.body.checkpoint.origin == binding.origin
      && LogSigned(crypto, Parse(note).value, if binding.logKeyName.Some? then binding.logKeyName.value else binding.origin, binding.logKey)
  {
    if Parse(note).Some? {
      var name := if binding.logKeyName.Some? then binding.logKeyName.value else binding.origin;
      var parsed := Parse(note).value;
      if i :| 0 <= i < |parsed.signatures| && LogSignatureOn(crypto, parsed, name, binding.logKey, i) {
        assert LogLine(crypto, note, binding, i);
      }
      if i: nat :| i < |note.signatures| && LogLine(crypto, note, binding, i) {
        assert LogSignatureOn(crypto, parsed, name, binding.logKey, i);
      }
    }
  }

  /** The parties with a witness that cosigned the note. */
  ghost predicate Cosigners(crypto: Crypto, note: NoteText, witnesses: seq<KnownWitness>, opts: VerifyOptions, parties: set<nat>) {
    forall p :: p in parties ==> exists w :: CosignsFor(crypto, note, UniqueByName(witnesses), opts, w, p)
  }

  /** The check passes exactly when the note is bound to the log and at least k different parties,
      k a positive number, have cosigned it in time: an honest quorum always passes. */
  lemma QuorumIff(crypto: Crypto, note: NoteText, witnesses: seq<KnownWitness>, k: int, binding: LogBinding, opts: VerifyOptions)
    ensures QuorumReached(crypto, note, witnesses, k, binding, opts) <==>
      && 1 <= k <= MAX_SAFE_INTEGER && BoundTo(crypto, note, binding)
      && exists parties: set<nat> :: |parties| >= k && Cosigners(crypto, note, witnesses, opts, parties)
  {
    hide CosigningParties, LogSigned, BoundTo, CosignsFor, PartyCount;
    BoundMeans(crypto, note, binding);
    var counted := CosigningParties(crypto, note, witnesses, opts);
    forall p
      ensures p in counted <==> exists w :: CosignsFor(crypto, note, UniqueByName(witnesses), opts, w, p)
    {
      CountedIff(crypto, note, witnesses, opts, p);
    }
    assert Cosigners(crypto, note, witnesses, opts, counted);
    if parties: set<nat> :| |parties| >= k && Cosigners(crypto, note, witnesses, opts, parties) {
      assert parties <= counted;
      SubsetSize(parties, counted);
      CountedPartiesAreNumbered(crypto, note, witnesses, opts);
      SetsUpTo(counted, PartyCount(witnesses));
    }
    CountedPartiesAreNumbered(crypto, note, witnesses, opts);
  }
}

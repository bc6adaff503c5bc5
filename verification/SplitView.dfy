/** No split view: quorums overlap in an honest party, and an honest party's history is
  append-only, so two quorum-witnessed checkpoints of one log never contradict each other.
 */
module SplitView {
  import opened Prelude
  import opened Consistency
  import opened SignedNote
  import opened Quorum
  import opened Parties
  import opened Witness

  /** Who operates each key, which operators are honest, and what each operator's cosigning
      witness has put its name to on each log. */
  datatype World = World(
    operator: Fingerprint -> nat,
    honest: nat -> bool,
    history: (nat, string) -> seq<Body>)

  /** An honest operator runs the cosigning witness: one append-only history per log. */
  ghost predicate HonestHistories(world: World) {
    forall op, origin :: world.honest(op) ==> AppendOnly(world.history(op, origin))
  }

  /** The history entry a signed message must come from. */
  ghost predicate Attested(world: World, fp: Fingerprint, message: Message) {
    var op := world.operator(fp);
    match message
    case Cosigned(_, body) => body in world.history(op, body.checkpoint.origin)
    case SubtreeSigned(_, _, origin, size, root) =>
      exists b :: b in world.history(op, origin) && b.checkpoint.treeSize == size && b.checkpoint.rootHash == root
    case LogBody(_) => true
  }

  /** A signature that verifies under an honest operator's key was made by its witness. */
  ghost predicate Unforgeable(crypto: Crypto, world: World) {
    forall fp: Fingerprint, message, sig :: world.honest(world.operator(fp)) && crypto.verify(fp.key, message, sig) ==>
      Attested(world, fp, message)
  }

  /** The keys configured under one name belong to one operator. */
  predicate SingleOwner(world: World, unique: seq<KnownWitness>) {
    forall w, x, y :: w in unique && x in KeyFingerprints(w) && y in KeyFingerprints(w) ==>
      world.operator(x) == world.operator(y)
  }

  function Owner(world: World, w: KnownWitness): nat
    requires HasKey(w)
  {
    world.operator(KeyFingerprints(w)[0])
  }

  /** The parties that answer to a dishonest operator. */
  ghost function DishonestParties(world: World, witnesses: seq<KnownWitness>): set<nat> {
    var unique := UniqueByName(witnesses);
    var g := GroupParties(unique);
    set w | w in unique && HasKey(w) && w.name in g.nameToParty && !world.honest(Owner(world, w)) :: g.nameToParty[w.name]
  }

  // ---------- One party, one operator ----------

  ghost predicate OwnersAgree(world: World, unique: seq<KnownWitness>, g: Grouping) {
    forall a, b ::
      (a in unique && b in unique && HasKey(a) && HasKey(b)
       && a.name in g.nameToParty && b.name in g.nameToParty && g.nameToParty[a.name] == g.nameToParty[b.name])
      ==> Owner(world, a) == Owner(world, b)
  }

  lemma OwnerOf(world: World, unique: seq<KnownWitness>, w: KnownWitness, fp: Fingerprint)
    requires SingleOwner(world, unique) && w in unique && fp in KeyFingerprints(w)
    ensures HasKey(w) && Owner(world, w) == world.operator(fp)
  {
    assert KeyFingerprints(w)[0] in KeyFingerprints(w);
  }

  lemma {:induction false} PartiesHaveOneOwner(world: World, unique: seq<KnownWitness>)
    requires DistinctNames(unique) && SingleOwner(world, unique)
    ensures OwnersAgree(world, unique, GroupParties(unique))
  {
    if unique != [] {
      hide *;
      var before, w := unique[..|unique| - 1], unique[|unique| - 1];
      assert unique == before + [w];
      DistinctBefore(before, w);
      PartiesHaveOneOwner(world, before);
      GroupingKeepsFacts(before);
      GroupPartiesOfSnoc(before, w);
      if HasKey(w) {
        OwnersAgreeStep(world, before, w, GroupParties(before), GroupStep(GroupParties(before), w));
      } else {
        KeylessStep(GroupParties(before), w);
      }
    }
  }

  lemma OwnersAgreeStep(world: World, before: seq<KnownWitness>, w: KnownWitness, g: Grouping, next: Grouping)
    requires DistinctNames(before + [w]) && GroupingFacts(before, g) && HasKey(w) && next == GroupStep(g, w)
    requires SingleOwner(world, before + [w]) && OwnersAgree(world, before, g)
    ensures OwnersAgree(world, before + [w], next)
  {
    hide *;
    forall a | a in before && HasKey(a) && a.name in next.nameToParty && w.name in next.nameToParty && next.nameToParty[a.name] == next.nameToParty[w.name]
      ensures Owner(world, a) == Owner(world, w)
    {
      NewMemberSharesOwner(world, before, w, g, next, a);
    }
    NamesKept(before, w, g, next);
    OwnersAgreeIntro(world, before, w, g, next);
  }

  lemma NamesKept(before: seq<KnownWitness>, w: KnownWitness, g: Grouping, next: Grouping)
    requires DistinctNames(before + [w]) && HasKey(w) && next == GroupStep(g, w)
    ensures forall a :: a in before ==> (a.name in next.nameToParty <==> a.name in g.nameToParty)
    ensures forall a :: a in before && a.name in g.nameToParty ==> next.nameToParty[a.name] == g.nameToParty[a.name]
  {
    hide GroupStep;
    GroupStepFacts(g, w);
    hide *;
    forall a | a in before ensures a.name != w.name {
      NamesDiffer(before, w, a);
    }
  }

  lemma OwnersAgreeIntro(world: World, before: seq<KnownWitness>, w: KnownWitness, g: Grouping, next: Grouping)
    requires OwnersAgree(world, before, g) && HasKey(w)
    requires forall a :: a in before ==> (a.name in next.nameToParty <==> a.name in g.nameToParty)
    requires forall a :: a in before && a.name in g.nameToParty ==> next.nameToParty[a.name] == g.nameToParty[a.name]
    requires forall a ::
      (a in before && HasKey(a) && a.name in next.nameToParty && w.name in next.nameToParty
       && next.nameToParty[a.name] == next.nameToParty[w.name])
      ==> Owner(world, a) == Owner(world, w)
    ensures OwnersAgree(world, before + [w], next)
  {
    hide HasKey, Owner;
    assert forall v :: v in before + [w] <==> v in before || v == w;
  }

  lemma NewMemberSharesOwner(world: World, before: seq<KnownWitness>, w: KnownWitness, g: Grouping, next: Grouping, a: KnownWitness)
    requires DistinctNames(before + [w]) && GroupingFacts(before, g) && HasKey(w) && next == GroupStep(g, w)
    requires SingleOwner(world, before + [w]) && OwnersAgree(world, before, g)
    requires a in before && HasKey(a) && a.name in next.nameToParty && w.name in next.nameToParty
    requires next.nameToParty[a.name] == next.nameToParty[w.name]
    ensures Owner(world, a) == Owner(world, w)
  {
    hide *;
    NamesDiffer(before, w, a);
    var fp, v := SharedMember(before, w, g, next, a);
    assert v in before + [w] && w in before + [w];
    OwnerOf(world, before + [w], v, fp);
    OwnerOf(world, before + [w], w, fp);
    Agree(world, before, g, a, v);
  }

  lemma Agree(world: World, unique: seq<KnownWitness>, g: Grouping, a: KnownWitness, b: KnownWitness)
    requires OwnersAgree(world, unique, g) && a in unique && b in unique && HasKey(a) && HasKey(b)
    requires a.name in g.nameToParty && b.name in g.nameToParty && g.nameToParty[a.name] == g.nameToParty[b.name]
    ensures Owner(world, a) == Owner(world, b)
  {
    hide HasKey, Owner;
  }

  /** A member a that w joins: some key of w is already held by a v of the same party. */
  lemma SharedMember(before: seq<KnownWitness>, w: KnownWitness, g: Grouping, next: Grouping, a: KnownWitness)
    returns (fp: Fingerprint, v: KnownWitness)
    requires DistinctNames(before + [w]) && GroupingFacts(before, g) && HasKey(w) && next == GroupStep(g, w)
    requires a in before && a.name in next.nameToParty && w.name in next.nameToParty && a.name != w.name
    requires next.nameToParty[a.name] == next.nameToParty[w.name]
    ensures a.name in g.nameToParty && v in before && fp in KeyFingerprints(v) && fp in KeyFingerprints(w)
    ensures v.name in g.nameToParty && g.nameToParty[v.name] == g.nameToParty[a.name]
  {
    hide GroupStep, KeyFingerprints;
    GroupStepFacts(g, w);
    assert g.nameToParty[a.name] < g.parties;
    fp :| fp in KeyFingerprints(w) && fp in g.fpToParty && g.fpToParty[fp] == next.nameToParty[w.name];
    v := HolderOf(before, g, fp);
  }

  // ---------- What a counted party has attested ----------

  /** The verified line behind a verified cosignature. */
  lemma {:induction false} FirstTimestampMeans(crypto: Crypto, parsed: ParsedNote, name: string, key: Key, alg: Algorithm,
                             bounds: TimeBounds, sigs: seq<NoteSignature>) returns (sig: seq<Byte>)
    requires FirstTimestamp(crypto, parsed, name, key, alg, bounds, sigs).Some?
    ensures crypto.verify(key, CosignedMessage(alg, name, FirstTimestamp(crypto, parsed, name, key, alg, bounds, sigs).value, parsed.body), sig)
  {
    var t := LineTimestamp(crypto, parsed, name, key, alg, bounds, sigs[0]);
    if t.Some? {
      sig := sigs[0].signature[TIMESTAMP_BYTES..];
    } else {
      sig := FirstTimestampMeans(crypto, parsed, name, key, alg, bounds, sigs[1..]);
    }
  }

  lemma {:induction false} AllCosignaturesMeans(crypto: Crypto, parsed: ParsedNote, witnesses: seq<KnownWitness>, bounds: TimeBounds, pq: bool, seen: set<string>, v: VerifiedCosignature)
    returns (w: KnownWitness)
    requires v in AllCosignatures(crypto, parsed, witnesses, bounds, pq, seen)
    ensures w in witnesses && w.name == v.name && v in CosignatureOf(crypto, parsed, w, v.alg, bounds)
  {
    hide CosignatureOf;
    if witnesses[0].name !in seen && v in CosignaturesOf(crypto, parsed, witnesses[0], bounds, pq) {
      w := witnesses[0];
      FromOneWitness(crypto, parsed, w, bounds, pq, v);
    } else if witnesses[0].name in seen {
      w := AllCosignaturesMeans(crypto, parsed, witnesses[1..], bounds, pq, seen, v);
    } else {
      w := AllCosignaturesMeans(crypto, parsed, witnesses[1..], bounds, pq, seen + {witnesses[0].name}, v);
    }
  }

  lemma FromOneWitness(crypto: Crypto, parsed: ParsedNote, w: KnownWitness, bounds: TimeBounds, pq: bool, v: VerifiedCosignature)
    requires v in CosignaturesOf(crypto, parsed, w, bounds, pq)
    ensures w.name == v.name && v in CosignatureOf(crypto, parsed, w, v.alg, bounds)
  {
    hide FirstTimestamp;
  }

  /** The honest party behind a cosignature has this note's size and root in its history. */
  lemma CosignatureIsAttested(crypto: Crypto, world: World, parsed: ParsedNote, w: KnownWitness, bounds: TimeBounds, v: VerifiedCosignature)
    returns (fp: Fingerprint, b: Body)
    requires Unforgeable(crypto, world) && v in CosignatureOf(crypto, parsed, w, v.alg, bounds)
    requires forall x :: x in KeyFingerprints(w) ==> world.honest(world.operator(x))
    ensures fp in KeyFingerprints(w)
    ensures b in world.history(world.operator(fp), parsed.body.checkpoint.origin)
    ensures b.checkpoint.treeSize == parsed.body.checkpoint.treeSize && b.checkpoint.rootHash == parsed.body.checkpoint.rootHash
  {
    hide FirstTimestamp, KeyFingerprints;
    var key := (if v.alg.Ed25519? then w.ed25519 else w.mlDsa44).value;
    fp := Fingerprint(v.alg, key);
    KeyIsListed(w, v.alg);
    var sig := FirstTimestampMeans(crypto, parsed, w.name, key, v.alg, bounds, parsed.signatures);
    var message := CosignedMessage(v.alg, w.name, v.timestamp, parsed.body);
    assert crypto.verify(fp.key, message, sig);
    assert Attested(world, fp, message);
    var cp := parsed.body.checkpoint;
    if v.alg.Ed25519? {
      b := parsed.body;
    } else {
      b :| b in world.history(world.operator(fp), cp.origin) && b.checkpoint.treeSize == cp.treeSize && b.checkpoint.rootHash == cp.rootHash;
    }
  }

  lemma KeyIsListed(w: KnownWitness, alg: Algorithm)
    requires (if alg.Ed25519? then w.ed25519 else w.mlDsa44).Some?
    ensures Fingerprint(alg, (if alg.Ed25519? then w.ed25519 else w.mlDsa44).value) in KeyFingerprints(w)
  {
  }

  /** A counted party that answers to no dishonest operator holds the note's tree state in
      its owner's history. */
  lemma CountedPartyIsAttested(crypto: Crypto, world: World, note: NoteText, witnesses: seq<KnownWitness>, opts: VerifyOptions, p: nat)
    returns (w: KnownWitness, b: Body)
    requires Unforgeable(crypto, world) && SingleOwner(world, UniqueByName(witnesses))
    requires p in CosigningParties(crypto, note, witnesses, opts) && p !in DishonestParties(world, witnesses)
    ensures Parse(note).Some?
    ensures w in UniqueByName(witnesses) && HasKey(w)
    ensures
      var names := GroupParties(UniqueByName(witnesses)).nameToParty;
      w.name in names && names[w.name] == p
    ensures world.honest(Owner(world, w))
    ensures
      var cp := Parse(note).value.body.checkpoint;
      && b in world.history(Owner(world, w), cp.origin)
      && b.checkpoint.treeSize == cp.treeSize && b.checkpoint.rootHash == cp.rootHash
  {
    hide AllCosignatures, GroupParties, UniqueByName, CosignatureOf, KeyFingerprints, Unforgeable, HasKey, Owner;
    var unique := UniqueByName(witnesses);
    var g := GroupParties(unique);
    var v :| v in VerifiedCosignatures(crypto, note, unique, opts) && v.name in g.nameToParty && g.nameToParty[v.name] == p;
    var parsed, bounds := Parse(note).value, BoundsOf(opts).value;
    w := AllCosignaturesMeans(crypto, parsed, unique, bounds, opts.pqAvailable, {}, v);
    UniqueNamesAreDistinct(witnesses);
    GroupingKeepsFacts(unique);
    assert HasKey(w);
    assert world.honest(Owner(world, w));
    forall x | x in KeyFingerprints(w)
      ensures world.honest(world.operator(x))
    {
      OwnerOf(world, unique, w, x);
    }
    var fp;
    fp, b := CosignatureIsAttested(crypto, world, parsed, w, bounds, v);
    OwnerOf(world, unique, w, fp);
  }

  // ---------- Counting ----------

  lemma {:induction false} SetsUpTo(s: set<nat>, n: nat)
    requires forall x :: x in s ==> x < n
    ensures |s| <= n
  {
    if n > 0 {
      SetsUpTo(s - {n - 1}, n - 1);
    } else {
      assert s == {};
    }
  }

  /** Two quorums of size k among n parties, f of them bad, with 2k > n + f, share a good one. */
  lemma QuorumsOverlap(a: set<nat>, b: set<nat>, bad: set<nat>, n: nat, k: nat, f: nat) returns (p: nat)
    requires (forall x :: x in a ==> x < n) && (forall x :: x in b ==> x < n)
    requires |a| >= k && |b| >= k && |bad| <= f && 2 * k > n + f
    ensures p in a && p in b && p !in bad
  {
    SetsUpTo(a + b, n);
    assert |a + b| + |a * b| == |a| + |b|;
    if a * b <= bad {
      SubsetSize(a * b, bad);
    }
    p :| p in a * b && p !in bad;
  }

  lemma CountedPartiesAreNumbered(crypto: Crypto, note: NoteText, witnesses: seq<KnownWitness>, opts: VerifyOptions)
    ensures forall p :: p in CosigningParties(crypto, note, witnesses, opts) ==> p < PartyCount(witnesses)
  {
    hide VerifiedCosignatures, GroupParties, UniqueByName;
    UniqueNamesAreDistinct(witnesses);
    GroupingKeepsFacts(UniqueByName(witnesses));
  }

  lemma QuorumFacts(crypto: Crypto, note: NoteText, witnesses: seq<KnownWitness>, k: int, binding: LogBinding, opts: VerifyOptions)
    requires QuorumReached(crypto, note, witnesses, k, binding, opts)
    ensures k >= 1 && Parse(note).Some? && Parse(note).value.body.checkpoint.origin == binding.origin
    ensures |CosigningParties(crypto, note, witnesses, opts)| >= k
  {
  }

  /** The theorem. With n parties of which at most f answer to dishonest operators, and
      2k > n + f, any two checkpoints of one log that both reach the quorum agree: at equal
      sizes the roots are equal, and otherwise every list behind the larger root has the
      smaller root over its first leaves. */
  lemma NoSplitView(crypto: Crypto, world: World, witnesses: seq<KnownWitness>, k: int, f: nat, binding: LogBinding,
                    note1: NoteText, opts1: VerifyOptions, note2: NoteText, opts2: VerifyOptions)
    requires HonestHistories(world) && Unforgeable(crypto, world) && SingleOwner(world, UniqueByName(witnesses))
    requires QuorumReached(crypto, note1, witnesses, k, binding, opts1)
    requires QuorumReached(crypto, note2, witnesses, k, binding, opts2)
    requires |DishonestParties(world, witnesses)| <= f && 2 * k > PartyCount(witnesses) + f
    requires Parse(note1).value.body.checkpoint.treeSize <= Parse(note2).value.body.checkpoint.treeSize
    ensures
      var c1, c2 := Parse(note1).value.body.checkpoint, Parse(note2).value.body.checkpoint;
      && Extends(c1.rootHash, c1.treeSize, c2.rootHash, c2.treeSize)
      && (c1.treeSize == c2.treeSize ==> c1.rootHash == c2.rootHash)
  {
    hide *;
    QuorumFacts(crypto, note1, witnesses, k, binding, opts1);
    QuorumFacts(crypto, note2, witnesses, k, binding, opts2);
    CountedPartiesAreNumbered(crypto, note1, witnesses, opts1);
    CountedPartiesAreNumbered(crypto, note2, witnesses, opts2);
    var p := QuorumsOverlap(CosigningParties(crypto, note1, witnesses, opts1), CosigningParties(crypto, note2, witnesses, opts2),
      DishonestParties(world, witnesses), PartyCount(witnesses), k, f);
    var w1, b1 := CountedPartyIsAttested(crypto, world, note1, witnesses, opts1, p);
    var w2, b2 := CountedPartyIsAttested(crypto, world, note2, witnesses, opts2, p);
    var unique := UniqueByName(witnesses);
    UniqueNamesAreDistinct(witnesses);
    PartiesHaveOneOwner(world, unique);
    Agree(world, unique, GroupParties(unique), w1, w2);
    HistoryIsOrdered(world, Owner(world, w1), binding.origin, b1, b2);
  }

  lemma HistoryIsOrdered(world: World, op: nat, origin: string, b1: Body, b2: Body)
    requires HonestHistories(world) && world.honest(op)
    requires b1 in world.history(op, origin) && b2 in world.history(op, origin)
    requires b1.checkpoint.treeSize <= b2.checkpoint.treeSize
    ensures Extends(b1.checkpoint.rootHash, b1.checkpoint.treeSize, b2.checkpoint.rootHash, b2.checkpoint.treeSize)
    ensures b1.checkpoint.treeSize == b2.checkpoint.treeSize ==> b1 == b2
  {
    hide Extends;
    var h := world.history(op, origin);
    assert AppendOnly(h);
    var i :| 0 <= i < |h| && h[i] == b1;
    var j :| 0 <= j < |h| && h[j] == b2;
    if i <= j {
      assert Follows(h[i], h[j]);
    } else {
      assert Follows(h[j], h[i]);
      ExtendsGrows(b2.checkpoint.rootHash, b2.checkpoint.treeSize, b1.checkpoint.rootHash, b1.checkpoint.treeSize);
      assert b1 == b2;
    }
  }

  // ---------- Single-key witnesses: parties are distinct keys ----------

  predicate SingleKeys(unique: seq<KnownWitness>) {
    forall w :: w in unique ==> |KeyFingerprints(w)| == 1
  }

  function ConfiguredKeys(unique: seq<KnownWitness>): set<Fingerprint> {
    set w, fp | w in unique && fp in KeyFingerprints(w) :: fp
  }

  ghost function DishonestKeys(world: World, unique: seq<KnownWitness>): set<Fingerprint> {
    set fp | fp in ConfiguredKeys(unique) && !world.honest(world.operator(fp))
  }

  /** The witness's name is filed under the party of its keys. */
  predicate FiledByKey(w: KnownWitness, g: Grouping) {
    forall fp :: fp in KeyFingerprints(w) ==>
      fp in g.fpToParty && w.name in g.nameToParty && g.nameToParty[w.name] == g.fpToParty[fp]
  }

  /** Each distinct key has its own number, and no number is wasted. */
  ghost predicate KeysAreNumbered(unique: seq<KnownWitness>, g: Grouping) {
    && g.fpToParty.Keys == ConfiguredKeys(unique)
    && |g.fpToParty.Keys| == g.parties
    && (forall w :: w in unique ==> FiledByKey(w, g))
  }

  lemma {:induction false} SingleKeysAreNumbered(unique: seq<KnownWitness>)
    requires DistinctNames(unique) && SingleKeys(unique)
    ensures KeysAreNumbered(unique, GroupParties(unique))
  {
    if unique != [] {
      hide *;
      var before, w := unique[..|unique| - 1], unique[|unique| - 1];
      assert unique == before + [w];
      DistinctBefore(before, w);
      SingleKeysAreNumbered(before);
      GroupPartiesOfSnoc(before, w);
      KeysAreNumberedStep(before, w, GroupParties(before), GroupStep(GroupParties(before), w));
    }
  }

  lemma KeysAreNumberedStep(before: seq<KnownWitness>, w: KnownWitness, g: Grouping, next: Grouping)
    requires DistinctNames(before + [w]) && KeysAreNumbered(before, g) && |KeyFingerprints(w)| == 1
    requires next == GroupStep(g, w)
    ensures KeysAreNumbered(before + [w], next)
  {
    hide GroupStep, KeyFingerprints, ConfiguredKeys;
    GroupStepFacts(g, w);
    var unique, fp := before + [w], KeyFingerprints(w)[0];
    assert KeyFingerprints(w) == [fp];
    ConfiguredKeysSnoc(before, w, fp);
    assert next.fpToParty.Keys == g.fpToParty.Keys + {fp};
    if fp in g.fpToParty {
      assert g.fpToParty.Keys + {fp} == g.fpToParty.Keys;
    } else {
      assert |g.fpToParty.Keys + {fp}| == |g.fpToParty.Keys| + 1;
    }
    forall v | v in unique
      ensures FiledByKey(v, next)
    {
      if v != w {
        assert v in before;
        NamesDiffer(before, w, v);
        assert FiledByKey(v, g);
      }
    }
  }

  lemma ConfiguredKeysSnoc(before: seq<KnownWitness>, w: KnownWitness, fp: Fingerprint)
    requires KeyFingerprints(w) == [fp]
    ensures ConfiguredKeys(before + [w]) == ConfiguredKeys(before) + {fp}
    ensures forall v, x :: v in before && x in KeyFingerprints(v) ==> x in ConfiguredKeys(before)
  {
    hide KeyFingerprints;
    var unique := before + [w];
    forall x
      ensures x in ConfiguredKeys(unique) <==> x in ConfiguredKeys(before) || x == fp
    {
      if x in ConfiguredKeys(before) {
        var v :| v in before && x in KeyFingerprints(v);
        assert v in unique;
      }
      if x == fp {
        assert w in unique && x in KeyFingerprints(w);
      }
    }
  }

  lemma {:induction false} ImageSize(m: map<Fingerprint, nat>, keys: set<Fingerprint>)
    requires keys <= m.Keys
    ensures |set fp | fp in keys :: m[fp]| <= |keys|
  {
    var image := set fp | fp in keys :: m[fp];
    if p :| p in image {
      var fp :| fp in keys && m[fp] == p;
      var rest := keys - {fp};
      ImageSize(m, rest);
      assert image == (set x | x in rest :: m[x]) + {p};
    } else {
      assert image == {};
    }
  }

  lemma DishonestPartiesAreFew(world: World, witnesses: seq<KnownWitness>)
    requires SingleKeys(UniqueByName(witnesses))
    ensures |DishonestParties(world, witnesses)| <= |DishonestKeys(world, UniqueByName(witnesses))|
  {
    hide GroupParties, UniqueByName, KeyFingerprints;
    var unique := UniqueByName(witnesses);
    var g := GroupParties(unique);
    UniqueNamesAreDistinct(witnesses);
    SingleKeysAreNumbered(unique);
    var keys := DishonestKeys(world, unique);
    var image := set fp | fp in keys :: g.fpToParty[fp];
    ImageSize(g.fpToParty, keys);
    forall p | p in DishonestParties(world, witnesses)
      ensures p in image
    {
      var w :| w in unique && HasKey(w) && w.name in g.nameToParty && !world.honest(Owner(world, w)) && g.nameToParty[w.name] == p;
      assert KeyFingerprints(w)[0] in KeyFingerprints(w);
      assert KeyFingerprints(w)[0] in keys;
    }
    SubsetSize(DishonestParties(world, witnesses), image);
  }

  /** The theorem for single-key witnesses: n distinct keys, at most f of them dishonest. */
  lemma NoSplitViewSingleKey(crypto: Crypto, world: World, witnesses: seq<KnownWitness>, k: int, f: nat, binding: LogBinding,
                             note1: NoteText, opts1: VerifyOptions, note2: NoteText, opts2: VerifyOptions)
    requires HonestHistories(world) && Unforgeable(crypto, world) && SingleKeys(UniqueByName(witnesses))
    requires QuorumReached(crypto, note1, witnesses, k, binding, opts1)
    requires QuorumReached(crypto, note2, witnesses, k, binding, opts2)
    requires |DishonestKeys(world, UniqueByName(witnesses))| <= f
    requires 2 * k > |ConfiguredKeys(UniqueByName(witnesses))| + f
    requires Parse(note1).value.body.checkpoint.treeSize <= Parse(note2).value.body.checkpoint.treeSize
    ensures
      var c1, c2 := Parse(note1).value.body.checkpoint, Parse(note2).value.body.checkpoint;
      && Extends(c1.rootHash, c1.treeSize, c2.rootHash, c2.treeSize)
      && (c1.treeSize == c2.treeSize ==> c1.rootHash == c2.rootHash)
  {
    hide *;
    var unique := UniqueByName(witnesses);
    UniqueNamesAreDistinct(witnesses);
    OneKeyOneOwner(world, unique);
    SingleKeysAreNumbered(unique);
    CountIsKeys(witnesses);
    DishonestPartiesAreFew(world, witnesses);
    NoSplitView(crypto, world, witnesses, k, f, binding, note1, opts1, note2, opts2);
  }

  // ---------- Honest operators that run the witness ----------

  /** Each honest operator runs one cosigning witness per log, started with no history, and
      has cosigned what that witness cosigned. */
  ghost predicate RunsWitnesses(crypto: Crypto, world: World) {
    forall op, origin :: world.honest(op) ==> RunsWitness(crypto, origin, world.history(op, origin))
  }

  ghost predicate RunsWitness(crypto: Crypto, origin: string, history: seq<Body>) {
    exists state: WitnessState, requests: seq<Request> ::
      state.origin == origin && state.lastCosigned.None? && Run(crypto, state, requests).1 == history
  }

  lemma WitnessesAreAppendOnly(crypto: Crypto, world: World)
    requires RunsWitnesses(crypto, world)
    ensures HonestHistories(world)
  {
    hide AppendOnly, Run;
    forall op, origin | world.honest(op)
      ensures AppendOnly(world.history(op, origin))
    {
      assert RunsWitness(crypto, origin, world.history(op, origin));
      var state: WitnessState, requests: seq<Request> :|
        state.origin == origin && state.lastCosigned.None? && Run(crypto, state, requests).1 == world.history(op, origin);
      RunIsAppendOnly(crypto, state, requests);
    }
  }

  /** From the witness's code to the quorum: when honest operators run the cosigning witness,
      whatever requests reach them, no two quorum-witnessed checkpoints of one log disagree. */
  lemma NoSplitViewOfRunningWitnesses(crypto: Crypto, world: World, witnesses: seq<KnownWitness>, k: int, f: nat, binding: LogBinding,
                                      note1: NoteText, opts1: VerifyOptions, note2: NoteText, opts2: VerifyOptions)
    requires RunsWitnesses(crypto, world) && Unforgeable(crypto, world) && SingleOwner(world, UniqueByName(witnesses))
    requires QuorumReached(crypto, note1, witnesses, k, binding, opts1)
    requires QuorumReached(crypto, note2, witnesses, k, binding, opts2)
    requires |DishonestParties(world, witnesses)| <= f && 2 * k > PartyCount(witnesses) + f
    requires Parse(note1).value.body.checkpoint.treeSize <= Parse(note2).value.body.checkpoint.treeSize
    ensures
      var c1, c2 := Parse(note1).value.body.checkpoint, Parse(note2).value.body.checkpoint;
      && Extends(c1.rootHash, c1.treeSize, c2.rootHash, c2.treeSize)
      && (c1.treeSize == c2.treeSize ==> c1.rootHash == c2.rootHash)
  {
    hide *;
    WitnessesAreAppendOnly(crypto, world);
    NoSplitView(crypto, world, witnesses, k, f, binding, note1, opts1, note2, opts2);
  }

  lemma OneKeyOneOwner(world: World, unique: seq<KnownWitness>)
    requires SingleKeys(unique)
    ensures SingleOwner(world, unique)
  {
    hide KeyFingerprints;
  }

  lemma CountIsKeys(witnesses: seq<KnownWitness>)
    requires KeysAreNumbered(UniqueByName(witnesses), GroupParties(UniqueByName(witnesses)))
    ensures PartyCount(witnesses) == |ConfiguredKeys(UniqueByName(witnesses))|
  {
  }
}

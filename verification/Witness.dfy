/** The cosigning witness: it puts its name only to checkpoints that extend everything it
  has cosigned before.
 */
module Witness {
  import opened Prelude
  import opened Merkle
  import opened Consistency
  import opened SignedNote

  datatype ConsistencyProof = ConsistencyProof(first: int, second: int, path: seq<HexText>)

  /** SHA-256 over the whole signed body. */
  datatype BodyHash = BodyHash(body: Body)

  datatype Baseline = Baseline(treeSize: nat, rootHash: Digest, bodyHash: BodyHash)

  datatype WitnessState = WitnessState(
    origin: string, logKey: Key, logKeyName: string, lastCosigned: Option<Baseline>)

  datatype RefusalCode =
    | MalformedNote
    | WrongOrigin
    | LogSignatureInvalid
    | TreeShrank
    | RootChangedWithoutGrowth
    | BodyChangedWithoutGrowth
    | ConsistencyProofMissing
    | ConsistencyProofInvalid

  datatype CosignResult =
    | Cosigns(body: Body, state: WitnessState)
    | Refuses(code: RefusalCode)

  datatype Request = Request(note: NoteText, proof: Option<ConsistencyProof>)

  function BaselineOf(b: Body): Baseline {
    Baseline(b.checkpoint.treeSize, b.checkpoint.rootHash, BodyHash(b))
  }

  predicate ProofAccepted(prev: Baseline, b: Body, proof: ConsistencyProof) {
    && proof.first == prev.treeSize
    && proof.second == b.checkpoint.treeSize
    && ConsistencyAccepted(Hex(prev.rootHash), Hex(b.checkpoint.rootHash), proof.first, proof.second, proof.path)
  }

  /** Which refusal the retained baseline forces, if any. */
  function BaselineObjection(prev: Option<Baseline>, b: Body, proof: Option<ConsistencyProof>): Option<RefusalCode> {
    if prev.None? then None
    else
      var last, cp := prev.value, b.checkpoint;
      if cp.treeSize < last.treeSize then Some(TreeShrank)
      else if cp.treeSize == last.treeSize then
        if cp.rootHash != last.rootHash then Some(RootChangedWithoutGrowth)
        else if BodyHash(b) != last.bodyHash then Some(BodyChangedWithoutGrowth)
        else None
      else if last.treeSize > 0 then
        if proof.None? then Some(ConsistencyProofMissing)
        else if !ProofAccepted(last, b, proof.value) then Some(ConsistencyProofInvalid)
        else None
      else None
  }

  function WitnessCosign(crypto: Crypto, state: WitnessState, request: Request): CosignResult {
    var parsed := Parse(request.note);
    if parsed.None? then Refuses(MalformedNote)
    else
      var b := parsed.value.body;
      if b.checkpoint.origin != state.origin then Refuses(WrongOrigin)
      else if !LogSigned(crypto, parsed.value, state.logKeyName, state.logKey) then Refuses(LogSignatureInvalid)
      else
        var objection := BaselineObjection(state.lastCosigned, b, request.proof);
        if objection.Some? then Refuses(objection.value)
        else Cosigns(b, state.(lastCosigned := Some(BaselineOf(b))))
  }

  /** The decision as the code takes it, with both verifiers run. */
  method Decide(crypto: Crypto, state: WitnessState, request: Request) returns (result: CosignResult)
    ensures result == WitnessCosign(crypto, state, request)
  {
    var parsed := Parse(request.note);
    if parsed.None? {
      return Refuses(MalformedNote);
    }
    var b := parsed.value.body;
    var cp := b.checkpoint;
    if cp.origin != state.origin {
      return Refuses(WrongOrigin);
    }
    var signed := VerifyNoteSignature(crypto, parsed.value, state.logKeyName, state.logKey);
    if !signed {
      return Refuses(LogSignatureInvalid);
    }
    if state.lastCosigned.Some? {
      var prev := state.lastCosigned.value;
      if cp.treeSize < prev.treeSize {
        return Refuses(TreeShrank);
      }
      if cp.treeSize == prev.treeSize {
        if cp.rootHash != prev.rootHash {
          return Refuses(RootChangedWithoutGrowth);
        }
        if BodyHash(b) != prev.bodyHash {
          return Refuses(BodyChangedWithoutGrowth);
        }
      } else if prev.treeSize > 0 {
        if request.proof.None? {
          return Refuses(ConsistencyProofMissing);
        }
        var proof := request.proof.value;
        var consistent := VerifyConsistency(Hex(prev.rootHash), Hex(cp.rootHash), proof.first, proof.second, proof.path);
        if proof.first != prev.treeSize || proof.second != cp.treeSize || !consistent {
          return Refuses(ConsistencyProofInvalid);
        }
      }
    }
    return Cosigns(b, state.(lastCosigned := Some(BaselineOf(b))));
  }

  // ---------- What the decision means ----------

  /** A readable checkpoint of the followed log. */
  predicate OfThisLog(state: WitnessState, note: NoteText) {
    note.Readable? && WellFormed(note.body) && note.body.checkpoint.origin == state.origin
  }

  /** Some line of the note is the followed log's signature over its body. */
  predicate SignedByLog(crypto: Crypto, state: WitnessState, note: NoteText) {
    && note.Readable?
    && exists i :: 0 <= i < |note.signatures|
         && note.signatures[i].name == state.logKeyName
         && note.signatures[i].keyId == crypto.keyId(state.logKeyName, SIG_TYPE_ED25519, state.logKey)
         && crypto.verify(state.logKey, LogBody(note.body), note.signatures[i].signature)
  }

  lemma SignedMeans(crypto: Crypto, state: WitnessState, note: NoteText)
    requires Parse(note).Some?
    ensures LogSigned(crypto, Parse(note).value, state.logKeyName, state.logKey) <==> SignedByLog(crypto, state, note)
  {
    var parsed := Parse(note).value;
    if i :| 0 <= i < |parsed.signatures| && LogSignatureOn(crypto, parsed, state.logKeyName, state.logKey, i) {
      assert note.signatures[i].name == state.logKeyName;
    }
    if i :| 0 <= i < |note.signatures| && note.signatures[i].name == state.logKeyName
            && note.signatures[i].keyId == crypto.keyId(state.logKeyName, SIG_TYPE_ED25519, state.logKey)
            && crypto.verify(state.logKey, LogBody(note.body), note.signatures[i].signature) {
      assert LogSignatureOn(crypto, parsed, state.logKeyName, state.logKey, i);
    }
  }

  /** The request shows an accepted proof from the baseline to the checkpoint. */
  predicate ShowsProof(last: Baseline, cp: Checkpoint, proof: Option<ConsistencyProof>) {
    && proof.Some? && proof.value.first == last.treeSize && proof.value.second == cp.treeSize
    && ConsistencyAccepted(Hex(last.rootHash), Hex(cp.rootHash), last.treeSize, cp.treeSize, proof.value.path)
  }

  /** Nothing cosigned before, the same body again, growth from an empty tree, or proved growth. */
  predicate GoesOnFrom(last: Option<Baseline>, b: Body, proof: Option<ConsistencyProof>) {
    || last.None?
    || (b.checkpoint.treeSize == last.value.treeSize && b.checkpoint.rootHash == last.value.rootHash && BodyHash(b) == last.value.bodyHash)
    || (b.checkpoint.treeSize > last.value.treeSize && (last.value.treeSize == 0 || ShowsProof(last.value, b.checkpoint, proof)))
  }

  /** A checkpoint is cosigned exactly when it is a readable one of this log, signed by the log,
      that goes on from the last one cosigned; then, and only then, it is the new baseline. */
  lemma CosignsIff(crypto: Crypto, state: WitnessState, request: Request)
    ensures var r := WitnessCosign(crypto, state, request);
      && (r.Cosigns? <==> OfThisLog(state, request.note) && SignedByLog(crypto, state, request.note)
                          && GoesOnFrom(state.lastCosigned, request.note.body, request.proof))
      && (r.Cosigns? ==>
          && r.body == request.note.body
          && r.state == state.(lastCosigned := Some(Baseline(r.body.checkpoint.treeSize, r.body.checkpoint.rootHash, BodyHash(r.body)))))
  {
    hide ConsistencyAccepted, LogSigned, SignedByLog;
    if Parse(request.note).Some? {
      SignedMeans(crypto, state, request.note);
    }
  }

  /** When each refusal is given. */
  predicate Warranted(crypto: Crypto, state: WitnessState, request: Request, code: RefusalCode) {
    var note, last := request.note, state.lastCosigned;
    match code
    case MalformedNote => !(note.Readable? && WellFormed(note.body))
    case WrongOrigin => note.Readable? && WellFormed(note.body) && note.body.checkpoint.origin != state.origin
    case LogSignatureInvalid => OfThisLog(state, note) && !SignedByLog(crypto, state, note)
    case TreeShrank => Followed(crypto, state, note) && note.body.checkpoint.treeSize < last.value.treeSize
    case RootChangedWithoutGrowth =>
      && Followed(crypto, state, note) && note.body.checkpoint.treeSize == last.value.treeSize
      && note.body.checkpoint.rootHash != last.value.rootHash
    case BodyChangedWithoutGrowth =>
      && Followed(crypto, state, note) && note.body.checkpoint.treeSize == last.value.treeSize
      && note.body.checkpoint.rootHash == last.value.rootHash && BodyHash(note.body) != last.value.bodyHash
    case ConsistencyProofMissing =>
      && Followed(crypto, state, note) && note.body.checkpoint.treeSize > last.value.treeSize > 0
      && request.proof.None?
    case ConsistencyProofInvalid =>
      && Followed(crypto, state, note) && note.body.checkpoint.treeSize > last.value.treeSize > 0
      && request.proof.Some? && !ShowsProof(last.value, note.body.checkpoint, request.proof)
  }

  /** A checkpoint of this log, signed by it, reaching a witness that has cosigned before. */
  predicate Followed(crypto: Crypto, state: WitnessState, note: NoteText) {
    OfThisLog(state, note) && SignedByLog(crypto, state, note) && state.lastCosigned.Some?
  }

  lemma RefusesIff(crypto: Crypto, state: WitnessState, request: Request, code: RefusalCode)
    ensures WitnessCosign(crypto, state, request) == Refuses(code) <==> Warranted(crypto, state, request, code)
  {
    hide ConsistencyAccepted, LogSigned, SignedByLog;
    if Parse(request.note).Some? {
      SignedMeans(crypto, state, request.note);
    }
  }

  // ---------- What a witness has put its name to ----------

  ghost predicate Follows(early: Body, late: Body) {
    && Extends(early.checkpoint.rootHash, early.checkpoint.treeSize, late.checkpoint.rootHash, late.checkpoint.treeSize)
    && (early.checkpoint.treeSize == late.checkpoint.treeSize ==> early == late)
  }

  /** Every later cosigned checkpoint extends every earlier one, and one size has one body. */
  ghost predicate AppendOnly(cosigned: seq<Body>) {
    && (forall i :: 0 <= i < |cosigned| ==> WellFormed(cosigned[i]))
    && (forall i, j :: 0 <= i <= j < |cosigned| ==> Follows(cosigned[i], cosigned[j]))
  }

  /** The retained baseline is the last body cosigned. */
  predicate Remembers(state: WitnessState, cosigned: seq<Body>) {
    state.lastCosigned == if cosigned == [] then None else Some(BaselineOf(cosigned[|cosigned| - 1]))
  }

  lemma FollowsTransitive(a: Body, b: Body, c: Body)
    requires Follows(a, b) && Follows(b, c)
    ensures Follows(a, c)
  {
    hide Extends;
    var (x, y, z) := (a.checkpoint, b.checkpoint, c.checkpoint);
    ExtendsTransitive(x.rootHash, x.treeSize, y.rootHash, y.treeSize, z.rootHash, z.treeSize);
    assert x.treeSize <= y.treeSize <= z.treeSize by {
      ExtendsGrows(x.rootHash, x.treeSize, y.rootHash, y.treeSize);
      ExtendsGrows(y.rootHash, y.treeSize, z.rootHash, z.treeSize);
    }
  }

  lemma ExtendsGrows(r1: Digest, m: nat, r2: Digest, n: nat)
    requires Extends(r1, m, r2, n)
    ensures m <= n
  {
  }

  lemma NoObjectionFollows(last: Body, b: Body, proof: Option<ConsistencyProof>)
    requires WellFormed(last) && WellFormed(b)
    requires BaselineObjection(Some(BaselineOf(last)), b, proof).None?
    ensures Follows(last, b)
  {
    hide Extends, ConsistencyAccepted;
    var (x, y) := (last.checkpoint, b.checkpoint);
    if x.treeSize == y.treeSize {
      ExtendsItself(x.rootHash, x.treeSize);
    } else if x.treeSize == 0 {
      EmptyExtends(y.rootHash, y.treeSize);
    } else {
      ConsistencySound(x.rootHash, y.rootHash, proof.value.first, proof.value.second, proof.value.path);
    }
  }

  /** One request keeps the witness append-only; a refusal adds nothing. */
  lemma CosignKeepsAppendOnly(crypto: Crypto, state: WitnessState, request: Request, cosigned: seq<Body>)
    requires AppendOnly(cosigned) && Remembers(state, cosigned)
    ensures
      var r := WitnessCosign(crypto, state, request);
      r.Cosigns? ==>
        && AppendOnly(cosigned + [r.body]) && Remembers(r.state, cosigned + [r.body])
        && r.state.origin == state.origin && r.body.checkpoint.origin == state.origin
  {
    hide Extends, ConsistencyAccepted, Follows;
    var r := WitnessCosign(crypto, state, request);
    if r.Cosigns? {
      var b := r.body;
      SelfFollows(b);
      forall i | 0 <= i < |cosigned|
        ensures Follows(cosigned[i], b)
      {
        var last := cosigned[|cosigned| - 1];
        assert Follows(cosigned[i], last);
        NoObjectionFollows(last, b, request.proof);
        FollowsTransitive(cosigned[i], last, b);
      }
    }
  }

  lemma SelfFollows(b: Body)
    ensures Follows(b, b)
  {
    hide Extends;
    ExtendsItself(b.checkpoint.rootHash, b.checkpoint.treeSize);
  }

  // ---------- Whole runs ----------

  /** Everything a witness cosigns over a sequence of requests. */
  function Run(crypto: Crypto, state: WitnessState, requests: seq<Request>): (r: (WitnessState, seq<Body>))
    decreases |requests|
  {
    if requests == [] then (state, [])
    else
      var (before, cosigned) := Run(crypto, state, requests[..|requests| - 1]);
      match WitnessCosign(crypto, before, requests[|requests| - 1])
      case Cosigns(b, after) => (after, cosigned + [b])
      case Refuses(_) => (before, cosigned)
  }

  /** Safety over whole runs: whatever requests arrive, the checkpoints a fresh witness ever
      cosigns form one append-only history of its log. */
  lemma {:induction false} RunIsAppendOnly(crypto: Crypto, state: WitnessState, requests: seq<Request>)
    requires state.lastCosigned.None?
    ensures
      var (last, cosigned) := Run(crypto, state, requests);
      && AppendOnly(cosigned) && Remembers(last, cosigned) && last.origin == state.origin
      && (forall i :: 0 <= i < |cosigned| ==> cosigned[i].checkpoint.origin == state.origin)
    decreases |requests|
  {
    hide WitnessCosign, AppendOnly;
    if requests == [] {
      EmptyIsAppendOnly();
    } else {
      RunIsAppendOnly(crypto, state, requests[..|requests| - 1]);
      var (before, cosigned) := Run(crypto, state, requests[..|requests| - 1]);
      CosignKeepsAppendOnly(crypto, before, requests[|requests| - 1], cosigned);
    }
  }

  /** Some request brought this very body, of this log and signed by it. */
  predicate Brought(crypto: Crypto, state: WitnessState, requests: seq<Request>, b: Body) {
    exists k :: 0 <= k < |requests|
      && OfThisLog(state, requests[k].note) && SignedByLog(crypto, state, requests[k].note) && requests[k].note.body == b
  }

  /** A witness never signs what its log has not: every body it cosigns over any run came in
      some request, with the followed log's signature on it. */
  lemma {:induction false} RunIsSigned(crypto: Crypto, state: WitnessState, requests: seq<Request>)
    ensures
      var (last, cosigned) := Run(crypto, state, requests);
      && last.origin == state.origin && last.logKey == state.logKey && last.logKeyName == state.logKeyName
      && forall i :: 0 <= i < |cosigned| ==> Brought(crypto, state, requests, cosigned[i])
    decreases |requests|
  {
    if requests != [] {
      hide WitnessCosign, SignedByLog, OfThisLog;
      var n := |requests| - 1;
      RunIsSigned(crypto, state, requests[..n]);
      var (before, cosigned) := Run(crypto, state, requests[..n]);
      CosignsIff(crypto, before, requests[n]);
      SameLog(crypto, before, state, requests[n].note);
      forall b | Brought(crypto, state, requests[..n], b)
        ensures Brought(crypto, state, requests, b)
      {
        var k :| 0 <= k < n && OfThisLog(state, requests[..n][k].note) && SignedByLog(crypto, state, requests[..n][k].note)
          && requests[..n][k].note.body == b;
        assert requests[k] == requests[..n][k];
      }
    }
  }

  lemma SameLog(crypto: Crypto, a: WitnessState, b: WitnessState, note: NoteText)
    requires a.origin == b.origin && a.logKey == b.logKey && a.logKeyName == b.logKeyName
    ensures OfThisLog(a, note) == OfThisLog(b, note) && SignedByLog(crypto, a, note) == SignedByLog(crypto, b, note)
  {
  }

  lemma EmptyIsAppendOnly()
    ensures AppendOnly([])
  {
  }

  /** What was last cosigned, if anything, is an earlier state of this log: its root over the
      first leaves, with the very same body if the log did not grow. */
  predicate EarlierState(last: Option<Baseline>, leaves: seq<Digest>, b: Body) {
    last.Some? ==>
      && last.value.treeSize <= |leaves|
      && last.value.rootHash == Root(leaves[..last.value.treeSize])
      && (last.value.treeSize == |leaves| ==> last.value.bodyHash == BodyHash(b))
  }

  /** The prover's path, which only growth from a non-empty tree needs. */
  predicate ShowsGrowth(last: Option<Baseline>, leaves: seq<Digest>, proof: Option<ConsistencyProof>) {
    last.Some? && 1 <= last.value.treeSize < |leaves| ==>
      && proof.Some?
      && proof.value.first == last.value.treeSize && proof.value.second == |leaves|
      && AllHex(proof.value.path) && Digests(proof.value.path) == SubProof(last.value.treeSize, leaves, true)
  }

  /** Liveness of the rule: a log that really grew, or did not change, is cosigned from every
      baseline: none, an empty tree, or any earlier state. */
  lemma HonestGrowthIsCosigned(crypto: Crypto, state: WitnessState, request: Request, leaves: seq<Digest>)
    requires Parse(request.note).Some? && |leaves| <= MAX_SAFE_INTEGER
    requires
      var parsed := Parse(request.note).value;
      var cp := parsed.body.checkpoint;
      && cp.origin == state.origin
      && LogSigned(crypto, parsed, state.logKeyName, state.logKey)
      && cp.treeSize == |leaves| && cp.rootHash == Root(leaves)
    requires EarlierState(state.lastCosigned, leaves, Parse(request.note).value.body)
    requires ShowsGrowth(state.lastCosigned, leaves, request.proof)
    ensures WitnessCosign(crypto, state, request).Cosigns?
    ensures WitnessCosign(crypto, state, request).state.lastCosigned == Some(BaselineOf(Parse(request.note).value.body))
  {
    hide ConsistencyAccepted, Root, SubProof, Digests, AllHex;
    if state.lastCosigned.Some? {
      var m := state.lastCosigned.value.treeSize;
      if m == |leaves| {
        assert leaves[..m] == leaves;
      } else if m >= 1 {
        ConsistencyExact(m, leaves, Root(leaves[..m]), request.proof.value.path);
      }
    }
  }

  /** The witness with the state it owns; requests reach it one at a time. */
  class CosigningWitness {
    const crypto: Crypto
    var state: WitnessState
    ghost var cosigned: seq<Body>

    ghost predicate Valid()
      reads this
    {
      && AppendOnly(cosigned)
      && Remembers(state, cosigned)
      && forall i :: 0 <= i < |cosigned| ==> cosigned[i].checkpoint.origin == state.origin
    }

    /** Start, or resume from the persisted state of an earlier run. */
    constructor (crypto: Crypto, state: WitnessState, ghost earlier: seq<Body>)
      requires AppendOnly(earlier) && Remembers(state, earlier)
      requires forall i :: 0 <= i < |earlier| ==> earlier[i].checkpoint.origin == state.origin
      ensures Valid() && this.crypto == crypto && this.state == state && cosigned == earlier
    {
      this.crypto := crypto;
      this.state := state;
      this.cosigned := earlier;
    }

    method Cosign(request: Request) returns (result: CosignResult)
      requires Valid()
      modifies this
      ensures Valid()
      ensures result == WitnessCosign(crypto, old(state), request)
      ensures result.Cosigns? ==> OfThisLog(old(state), request.note) && SignedByLog(crypto, old(state), request.note)
      ensures result.Cosigns? ==> state == result.state && cosigned == old(cosigned) + [result.body]
      ensures result.Refuses? ==> state == old(state) && cosigned == old(cosigned)
    {
      result := Decide(crypto, state, request);
      CosignKeepsAppendOnly(crypto, state, request, cosigned);
      CosignsIff(crypto, state, request);
      hide WitnessCosign, AppendOnly;
      if result.Cosigns? {
        state := result.state;
        cosigned := cosigned + [result.body];
      }
    }
  }
}

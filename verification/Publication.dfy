/** Publishing the registry as a status list, and the verifier that must not be rolled back. */
module Publication {
  import opened Prelude
  import opened RevocationStore
  import opened Registry

  // ---------- What a published list says ----------

  /** A kill under this purpose, or a link to an agent blocked under it, claims bit i. */
  predicate Marked(s: Store, purpose: Purpose, i: nat) {
    || (exists m :: m in s.records && s.records[m].purpose == purpose && s.records[m].index == Some(i))
    || (exists a :: a in s.blocked && s.blocked[a].purpose == purpose && ListsIndex(s, MandatesFor(s, a), i))
  }

  predicate ListsIndex(s: Store, mandates: seq<string>, i: nat) {
    exists k :: 0 <= k < |mandates| && IndexOf(s, mandates[k]) == Some(i)
  }

  function PublishedBits(s: Store, purpose: Purpose, entries: nat): (bits: seq<bool>)
    ensures |bits| == entries
  {
    seq(entries, i requires 0 <= i < entries => Marked(s, purpose, i))
  }

  predicate KilledUnder(s: Store, mandateId: string, purpose: Purpose) {
    mandateId in s.records && s.records[mandateId].purpose == purpose
  }

  predicate LinkedToBlocked(s: Store, mandateId: string, purpose: Purpose) {
    exists a :: a in s.blocked && s.blocked[a].purpose == purpose && mandateId in MandatesFor(s, a)
  }

  lemma KillsAndLinksMark(s: Store, purpose: Purpose, entries: nat, mandateId: string)
    requires Sound(s, entries) && mandateId in s.indices
    requires KilledUnder(s, mandateId, purpose) || LinkedToBlocked(s, mandateId, purpose)
    ensures Marked(s, purpose, s.indices[mandateId])
  {
    hide OwnBits, LinksKnown;
    if KilledUnder(s, mandateId, purpose) {
      assert RecordIndexed(s, entries, mandateId);
    } else {
      var a :| a in s.blocked && s.blocked[a].purpose == purpose && mandateId in MandatesFor(s, a);
      var k :| 0 <= k < |MandatesFor(s, a)| && MandatesFor(s, a)[k] == mandateId;
      assert ListsIndex(s, MandatesFor(s, a), s.indices[mandateId]);
    }
  }

  lemma OnlyTheyMark(s: Store, purpose: Purpose, entries: nat, mandateId: string)
    requires Sound(s, entries) && mandateId in s.indices && Marked(s, purpose, s.indices[mandateId])
    ensures KilledUnder(s, mandateId, purpose) || LinkedToBlocked(s, mandateId, purpose)
  {
    hide LinksKnown;
    var i := s.indices[mandateId];
    if m :| m in s.records && s.records[m].purpose == purpose && s.records[m].index == Some(i) {
      assert RecordIndexed(s, entries, m);
    } else {
      var a :| a in s.blocked && s.blocked[a].purpose == purpose && ListsIndex(s, MandatesFor(s, a), i);
      var k :| 0 <= k < |MandatesFor(s, a)| && IndexOf(s, MandatesFor(s, a)[k]) == Some(i);
      assert MandatesFor(s, a)[k] in MandatesFor(s, a);
    }
  }

  /** A mandate's bit is set exactly when it is killed under the purpose or linked to an agent
      blocked under it: bits are never shared, so nobody else can set it. */
  lemma PublicationIsExact(s: Store, purpose: Purpose, entries: nat, mandateId: string)
    requires Sound(s, entries) && mandateId in s.indices
    ensures s.indices[mandateId] < entries
    ensures PublishedBits(s, purpose, entries)[s.indices[mandateId]]
      <==> KilledUnder(s, mandateId, purpose) || LinkedToBlocked(s, mandateId, purpose)
  {
    hide Marked, KilledUnder, LinkedToBlocked, RecordsIndexed, LinksKnown;
    if KilledUnder(s, mandateId, purpose) || LinkedToBlocked(s, mandateId, purpose) {
      KillsAndLinksMark(s, purpose, entries, mandateId);
    }
    if Marked(s, purpose, s.indices[mandateId]) {
      OnlyTheyMark(s, purpose, entries, mandateId);
    }
  }

  /** What the issuer's own check denies. */
  predicate LocallyDenied(s: Store, agentId: string, mandateId: string) {
    agentId in s.blocked || mandateId in s.records
  }

  /** For a mandate held by its one agent, a remote party reading both published lists sees a
      set bit exactly when the issuer itself would deny. */
  lemma RemoteAgreesWithLocal(ops: seq<Op>, owner: map<string, string>, entries: nat, mandateId: string)
    requires OneAgentEach(ops, owner) && mandateId in Run(ops, entries).store.agents
    ensures var s := Run(ops, entries).store;
      && mandateId in owner && mandateId in s.indices && s.indices[mandateId] < entries
      && (LocallyDenied(s, owner[mandateId], mandateId) <==>
          PublishedBits(s, Revocation, entries)[s.indices[mandateId]] || PublishedBits(s, Suspension, entries)[s.indices[mandateId]])
  {
    hide Run, PublishedBits;
    var s := Run(ops, entries).store;
    RunIsSound(ops, entries);
    RunOwners(ops, owner, entries);
    PublicationIsExact(s, Revocation, entries, mandateId);
    PublicationIsExact(s, Suspension, entries, mandateId);
    if owner[mandateId] in s.blocked {
      assert LinkedToBlocked(s, mandateId, s.blocked[owner[mandateId]].purpose);
    }
  }

  // ---------- Versions ----------

  /** `signing` holds the versions reserved by publishes still waiting for their signature. */
  datatype Publisher = Publisher(last: int, signing: set<int>, issued: seq<int>)

  datatype PublishStep = Begin(version: int) | Signed(version: int) | SignerFailed(version: int)

  predicate AboveFloor(p: Publisher, version: int) {
    version > p.last && forall v :: v in p.signing ==> version > v
  }

  function PublishNext(p: Publisher, step: PublishStep): Publisher {
    match step
    case Begin(v) =>
      if -(MAX_SAFE_INTEGER as int) <= v <= MAX_SAFE_INTEGER && AboveFloor(p, v) then p.(signing := p.signing + {v}) else p
    case Signed(v) =>
      if v in p.signing then Publisher(Max(p.last, v), p.signing - {v}, p.issued + [v]) else p
    case SignerFailed(v) => p.(signing := p.signing - {v})
  }

  function Publishes(floor: int, steps: seq<PublishStep>): Publisher {
    if steps == [] then Publisher(floor, {}, []) else PublishNext(Publishes(floor, steps[..|steps| - 1]), steps[|steps| - 1])
  }

  predicate VersionsSound(p: Publisher, floor: int) {
    && p.last >= floor
    && (forall i :: 0 <= i < |p.issued| ==> floor < p.issued[i] <= p.last && p.issued[i] !in p.signing)
    && (forall v :: v in p.signing ==> v > floor)
    && (forall i, j :: 0 <= i < j < |p.issued| ==> p.issued[i] != p.issued[j])
  }

  /** However publishes overlap and whatever signatures fail, no version is issued twice, and
      every one is above the floor the registry started from. */
  lemma {:induction false} NoVersionTwice(floor: int, steps: seq<PublishStep>)
    ensures VersionsSound(Publishes(floor, steps), floor)
  {
    if steps != [] {
      NoVersionTwice(floor, steps[..|steps| - 1]);
    }
  }

  /** A version is reserved exactly when it is a safe integer above everything published or being
      signed; signing one that was reserved issues it and raises the last published version. */
  lemma PublishingGoesOn(p: Publisher, version: int)
    ensures (version !in p.signing && version in PublishNext(p, Begin(version)).signing)
      <==> -(MAX_SAFE_INTEGER as int) <= version <= MAX_SAFE_INTEGER && version > p.last && forall v :: v in p.signing ==> version > v
    ensures version in p.signing ==>
      var p' := PublishNext(p, Signed(version));
      && p'.issued == p.issued + [version] && version !in p'.signing
      && p'.last >= version && p'.last >= p.last && (p'.last == version || p'.last == p.last)
    ensures version !in PublishNext(p, SignerFailed(version)).signing && PublishNext(p, SignerFailed(version)).issued == p.issued
  {
  }

  /** A version reserved after another was issued is the newer of the two. */
  lemma ReservedIsNewer(floor: int, steps: seq<PublishStep>, version: int, i: nat)
    requires var p := Publishes(floor, steps); i < |p.issued| && version !in p.signing
    requires version in PublishNext(Publishes(floor, steps), Begin(version)).signing
    ensures version > Publishes(floor, steps).issued[i]
  {
    hide Publishes;
    NoVersionTwice(floor, steps);
  }

  // ---------- The verifier ----------

  datatype Credential = Credential(version: int, encodedList: string, purpose: Purpose, id: string, issuer: string,
                                   validFrom: Option<int>, validUntil: Option<int>, entries: int)

  /** Signature checks and list decoding are given; so are the caller's expectations. */
  datatype CheckOptions = CheckOptions(authentic: Credential -> bool, decode: string -> Option<seq<bool>>,
                                       expectedPurpose: Purpose, expectedListId: Option<string>, expectedIssuer: Option<string>)

  datatype Code =
    | OK | SignatureInvalid | PurposeMismatch | ListMismatch | IssuerMismatch | Malformed
    | NotYetValid | Expired | LengthError | RangeError

  datatype StatusCheck = StatusCheck(valid: bool, revoked: bool, code: Code)

  const MINIMUM_ENTRIES: nat := 131072

  function Fail(code: Code): StatusCheck {
    StatusCheck(false, false, code)
  }

  function CheckStatus(opts: CheckOptions, c: Credential, index: int, nowMs: int): StatusCheck {
    if !opts.authentic(c) then Fail(SignatureInvalid)
    else if c.purpose != opts.expectedPurpose then Fail(PurposeMismatch)
    else if opts.expectedListId.Some? && c.id != opts.expectedListId.value then Fail(ListMismatch)
    else if opts.expectedIssuer.Some? && c.issuer != opts.expectedIssuer.value then Fail(IssuerMismatch)
    else if c.validFrom.None? || c.validUntil.None? || c.validFrom.value >= c.validUntil.value then Fail(Malformed)
    else if nowMs < c.validFrom.value then Fail(NotYetValid)
    else if nowMs >= c.validUntil.value then Fail(Expired)
    else
      var bits := opts.decode(c.encodedList);
      if bits.None? || |bits.value| != c.entries then Fail(Malformed)
      else if |bits.value| < MINIMUM_ENTRIES then Fail(LengthError)
      else if index < 0 || index >= |bits.value| then Fail(RangeError)
      else StatusCheck(!bits.value[index], bits.value[index], OK)
  }

  datatype Verdict = Allowed | NoStatusIndex | RetrievalError | Rollback | EntrySet | StatusProblem(code: Code)

  datatype Floor = Floor(highest: int, content: Option<string>)

  /** What one authorization asks: the mandate's index, the list fetched, and the clock. */
  datatype Ask = Ask(index: Option<int>, fetched: Option<Credential>, nowMs: int)

  predicate RollsBack(f: Floor, c: Credential) {
    c.version < f.highest || (c.version == f.highest && f.content.Some? && c.encodedList != f.content.value)
  }

  function Answer(opts: CheckOptions, f: Floor, ask: Ask): (Verdict, Floor) {
    if ask.index.None? then (NoStatusIndex, f)
    else if ask.fetched.None? then (RetrievalError, f)
    else
      var c := ask.fetched.value;
      if RollsBack(f, c) then (Rollback, f)
      else
        var check := CheckStatus(opts, c, ask.index.value, ask.nowMs);
        var f' := if check.code.OK? && c.version >= f.highest then Floor(c.version, Some(c.encodedList)) else f;
        (if check.valid then Allowed else if check.revoked then EntrySet else StatusProblem(check.code), f')
  }

  // ---------- What the verdict means ----------

  /** Not older than the list acted on last, and not another list at its version. */
  predicate NotRolledBack(f: Floor, c: Credential) {
    c.version > f.highest || (c.version == f.highest && (f.content.None? || f.content.value == c.encodedList))
  }

  /** The list is genuine, for what was asked, in date and whole. */
  predicate Trustworthy(opts: CheckOptions, c: Credential, nowMs: int) {
    && opts.authentic(c)
    && c.purpose == opts.expectedPurpose
    && (opts.expectedListId.Some? ==> c.id == opts.expectedListId.value)
    && (opts.expectedIssuer.Some? ==> c.issuer == opts.expectedIssuer.value)
    && c.validFrom.Some? && c.validUntil.Some? && c.validFrom.value <= nowMs < c.validUntil.value
    && opts.decode(c.encodedList).Some? && |opts.decode(c.encodedList).value| == c.entries >= MINIMUM_ENTRIES
  }

  /** The mandate has an index, a trustworthy list was fetched that is no rollback, and its bit
      at that index is this one. */
  predicate ShowsBit(opts: CheckOptions, f: Floor, ask: Ask, bit: bool) {
    && ask.index.Some? && ask.fetched.Some?
    && NotRolledBack(f, ask.fetched.value) && Trustworthy(opts, ask.fetched.value, ask.nowMs)
    && var bits, i := opts.decode(ask.fetched.value.encodedList).value, ask.index.value;
       0 <= i < |bits| && bits[i] == bit
  }

  /** A mandate is let through exactly when such a list shows its bit clear, and reported as
      killed exactly when one shows it set; exactly then the floor moves to that list. */
  lemma VerdictIff(opts: CheckOptions, f: Floor, ask: Ask)
    ensures Answer(opts, f, ask).0.Allowed? <==> ShowsBit(opts, f, ask, false)
    ensures Answer(opts, f, ask).0.EntrySet? <==> ShowsBit(opts, f, ask, true)
    ensures Answer(opts, f, ask).1 ==
      if ShowsBit(opts, f, ask, false) || ShowsBit(opts, f, ask, true)
      then Floor(ask.fetched.value.version, Some(ask.fetched.value.encodedList)) else f
  {
  }

  /** One check on its own, by the code that reports its failure. */
  predicate Passes(opts: CheckOptions, c: Credential, index: int, nowMs: int, code: Code) {
    match code
    case OK => true
    case SignatureInvalid => opts.authentic(c)
    case PurposeMismatch => c.purpose == opts.expectedPurpose
    case ListMismatch => opts.expectedListId.Some? ==> c.id == opts.expectedListId.value
    case IssuerMismatch => opts.expectedIssuer.Some? ==> c.issuer == opts.expectedIssuer.value
    case Malformed =>
      && c.validFrom.Some? && c.validUntil.Some? && c.validFrom.value < c.validUntil.value
      && opts.decode(c.encodedList).Some? && |opts.decode(c.encodedList).value| == c.entries
    case NotYetValid => c.validFrom.Some? ==> c.validFrom.value <= nowMs
    case Expired => c.validUntil.Some? ==> nowMs < c.validUntil.value
    case LengthError => opts.decode(c.encodedList).Some? ==> |opts.decode(c.encodedList).value| >= MINIMUM_ENTRIES
    case RangeError => opts.decode(c.encodedList).Some? ==> 0 <= index < |opts.decode(c.encodedList).value|
  }

  /** Every other refusal says why: which of the four, and for a problem with the list, a check
      that really fails, with identity checked before dates and dates before contents. */
  lemma RefusalMeans(opts: CheckOptions, f: Floor, ask: Ask)
    ensures var v := Answer(opts, f, ask).0;
      && (v.NoStatusIndex? <==> ask.index.None?)
      && (v.RetrievalError? <==> ask.index.Some? && ask.fetched.None?)
      && (v.Rollback? <==> ask.index.Some? && ask.fetched.Some? && !NotRolledBack(f, ask.fetched.value))
      && (v.StatusProblem? ==> ask.index.Some? && ask.fetched.Some? && FirstFailure(opts, ask.fetched.value, ask.index.value, ask.nowMs, v.code))
  {
  }

  predicate FirstFailure(opts: CheckOptions, c: Credential, index: int, nowMs: int, code: Code) {
    && !Passes(opts, c, index, nowMs, code)
    && (!code.SignatureInvalid? ==> Passes(opts, c, index, nowMs, SignatureInvalid))
    && (!code.SignatureInvalid? && !code.PurposeMismatch? ==> Passes(opts, c, index, nowMs, PurposeMismatch))
    && (code.IssuerMismatch? ==> Passes(opts, c, index, nowMs, ListMismatch))
    && (code.NotYetValid? || code.Expired? || code.Malformed? || code.LengthError? || code.RangeError? ==>
        Passes(opts, c, index, nowMs, ListMismatch) && Passes(opts, c, index, nowMs, IssuerMismatch))
    && (code.LengthError? || code.RangeError? ==>
        Passes(opts, c, index, nowMs, Malformed) && Passes(opts, c, index, nowMs, NotYetValid) && Passes(opts, c, index, nowMs, Expired))
    && (code.RangeError? ==> Passes(opts, c, index, nowMs, LengthError))
  }

  /** What a relying party configures and fetches for one published list: its purpose, and a
      trustworthy credential, no rollback, that decodes to what the registry published. */
  predicate Relies(opts: CheckOptions, f: Floor, ask: Ask, s: Store, purpose: Purpose, entries: nat, mandateId: string) {
    && mandateId in s.indices && ask.index == Some(s.indices[mandateId])
    && opts.expectedPurpose == purpose && ask.fetched.Some?
    && NotRolledBack(f, ask.fetched.value) && Trustworthy(opts, ask.fetched.value, ask.nowMs)
    && opts.decode(ask.fetched.value.encodedList) == Some(PublishedBits(s, purpose, entries))
  }

  /** From the registry to the relying party: one that asks both published lists lets a mandate
      through exactly when the issuer's own check does not deny it. */
  lemma RemotePartyAgrees(ops: seq<Op>, owner: map<string, string>, entries: nat, mandateId: string,
                          opts1: CheckOptions, f1: Floor, ask1: Ask, opts2: CheckOptions, f2: Floor, ask2: Ask)
    requires OneAgentEach(ops, owner) && mandateId in Run(ops, entries).store.agents
    requires Relies(opts1, f1, ask1, Run(ops, entries).store, Revocation, entries, mandateId)
    requires Relies(opts2, f2, ask2, Run(ops, entries).store, Suspension, entries, mandateId)
    ensures mandateId in owner
    ensures Answer(opts1, f1, ask1).0.Allowed? && Answer(opts2, f2, ask2).0.Allowed?
      <==> !LocallyDenied(Run(ops, entries).store, owner[mandateId], mandateId)
  {
    hide Run, PublishedBits, Answer, Trustworthy, NotRolledBack, LocallyDenied;
    RemoteAgreesWithLocal(ops, owner, entries, mandateId);
    VerdictIff(opts1, f1, ask1);
    VerdictIff(opts2, f2, ask2);
  }

  /** The check `createStatusListCheck` returns, with rollback rejection on as by default. */
  class StatusListCheck {
    const opts: CheckOptions
    var highestVersion: int
    var floorContent: Option<string>

    constructor (opts: CheckOptions, initialVersionFloor: int)
      ensures this.opts == opts && Current() == Floor(initialVersionFloor, None)
    {
      this.opts, highestVersion, floorContent := opts, initialVersionFloor, None;
    }

    function Current(): Floor
      reads this
    {
      Floor(highestVersion, floorContent)
    }

    method Check(ask: Ask) returns (verdict: Verdict)
      modifies this
      ensures (verdict, Current()) == Answer(opts, old(Current()), ask)
      ensures verdict.Allowed? <==> ShowsBit(opts, old(Current()), ask, false)
      ensures verdict.EntrySet? <==> ShowsBit(opts, old(Current()), ask, true)
    {
      VerdictIff(opts, Current(), ask);
      hide ShowsBit;
      if ask.index.None? {
        return NoStatusIndex;
      }
      if ask.fetched.None? {
        return RetrievalError;
      }
      var c := ask.fetched.value;
      if c.version < highestVersion {
        return Rollback;
      }
      if c.version == highestVersion && floorContent.Some? && c.encodedList != floorContent.value {
        return Rollback;
      }
      var check := CheckStatus(opts, c, ask.index.value, ask.nowMs);
      if check.code.OK? && c.version >= highestVersion {
        highestVersion, floorContent := c.version, Some(c.encodedList);
      }
      if !check.valid {
        return if check.revoked then EntrySet else StatusProblem(check.code);
      }
      return Allowed;
    }
  }

  function FloorAfter(opts: CheckOptions, f: Floor, asks: seq<Ask>): Floor {
    if asks == [] then f else Answer(opts, FloorAfter(opts, f, asks[..|asks| - 1]), asks[|asks| - 1]).1
  }

  function VerdictAt(opts: CheckOptions, f: Floor, asks: seq<Ask>, i: nat): Verdict
    requires i < |asks|
  {
    Answer(opts, FloorAfter(opts, f, asks[..i]), asks[i]).0
  }

  /** The verifier has pinned this list: nothing older, and nothing else at its version. */
  predicate Pinned(f: Floor, c: Credential) {
    f.highest > c.version || (f.highest == c.version && f.content == Some(c.encodedList))
  }

  lemma AnswerPins(opts: CheckOptions, f: Floor, ask: Ask)
    requires Answer(opts, f, ask).0.Allowed? || Answer(opts, f, ask).0.EntrySet?
    ensures ask.fetched.Some? && Pinned(Answer(opts, f, ask).1, ask.fetched.value)
  {
  }

  lemma AnswerKeepsPinned(opts: CheckOptions, f: Floor, ask: Ask, c: Credential)
    requires Pinned(f, c)
    ensures Pinned(Answer(opts, f, ask).1, c)
  {
  }

  lemma {:induction false} StaysPinned(opts: CheckOptions, f: Floor, asks: seq<Ask>, i: nat, j: nat, c: Credential)
    requires i <= j <= |asks| && Pinned(FloorAfter(opts, f, asks[..i]), c)
    ensures Pinned(FloorAfter(opts, f, asks[..j]), c)
    decreases j
  {
    hide Answer, Pinned;
    if i < j {
      StaysPinned(opts, f, asks, i, j - 1, c);
      assert asks[..j][..j - 1] == asks[..j - 1];
      AnswerKeepsPinned(opts, FloorAfter(opts, f, asks[..j - 1]), asks[j - 1], c);
    }
  }

  /** After a verifier acted on an authentic list, allowing or denying, it later allows only
      on a newer version, or on that version with the very same list. */
  lemma NeverRolledBack(opts: CheckOptions, f: Floor, asks: seq<Ask>, i: nat, j: nat)
    requires i < j < |asks|
    requires VerdictAt(opts, f, asks, i).Allowed? || VerdictAt(opts, f, asks, i).EntrySet?
    requires VerdictAt(opts, f, asks, j).Allowed?
    ensures asks[i].fetched.Some? && asks[j].fetched.Some?
    ensures var seen, now := asks[i].fetched.value, asks[j].fetched.value;
      now.version > seen.version || (now.version == seen.version && now.encodedList == seen.encodedList)
  {
    hide CheckStatus;
    var before := FloorAfter(opts, f, asks[..i]);
    AnswerPins(opts, before, asks[i]);
    assert asks[..i + 1][..i] == asks[..i];
    assert FloorAfter(opts, f, asks[..i + 1]) == Answer(opts, before, asks[i]).1;
    StaysPinned(opts, f, asks, i + 1, j, asks[i].fetched.value);
  }

  /** Having once seen a mandate revoked, a verifier allows it again only on a newer version. */
  lemma RevokedUntilNewer(opts: CheckOptions, f: Floor, asks: seq<Ask>, i: nat, j: nat)
    requires i < j < |asks| && asks[i].index == asks[j].index
    requires VerdictAt(opts, f, asks, i).EntrySet? && VerdictAt(opts, f, asks, j).Allowed?
    ensures asks[i].fetched.Some? && asks[j].fetched.Some? && asks[j].fetched.value.version > asks[i].fetched.value.version
  {
    NeverRolledBack(opts, f, asks, i, j);
  }
}

/** The registry object: its operations, its hydration and the reservation of versions. */
module RevocationRegistry {
  import opened Prelude
  import opened RevocationStore
  import opened Registry
  import opened Publication

  class RevocationRegistry {
    const store: MemoryRevocationStore
    const entries: nat
    var ledger: seq<Event>
    var lastPublishedVersion: int
    var signingVersions: set<int>

    function State(): Reg
      reads this, store
    {
      Reg(store.Contents(), lastPublishedVersion, ledger)
    }

    /** The publisher of Publication, given what was issued so far. */
    function Publishing(issued: seq<int>): Publisher
      reads this
    {
      Publisher(lastPublishedVersion, signingVersions, issued)
    }

    predicate Reservable(version: int)
      reads this
    {
      -(MAX_SAFE_INTEGER as int) <= version <= MAX_SAFE_INTEGER && AboveFloor(Publishing([]), version)
    }

    /** A process starts with an empty store over whatever the audit ledger holds. */
    constructor (entries: nat, ledger: seq<Event>)
      requires entries > 0 && entries % 8 == 0
      ensures State() == NEW_REGISTRY.(events := ledger) && this.entries == entries && signingVersions == {} && fresh(store)
    {
      this.entries, this.ledger, lastPublishedVersion, signingVersions := entries, ledger, -1, {};
      store := new MemoryRevocationStore();
    }

    /** Throws when the list is full. */
    method AssignIndex(mandateId: string, agentId: string) returns (index: Option<nat>)
      modifies this`ledger, store
      ensures State() == Step(old(State()), Assign(mandateId, agentId), entries)
      ensures index == IndexOf(State().store, mandateId)
    {
      index := store.Allocate(mandateId, Some(agentId), entries);
      if index.None? {
        return;
      }
      ledger := ledger + [IndexAssigned(mandateId, agentId)];
    }

    method KillLocally(mandateId: string, given: Option<string>, block: Block)
      modifies this`ledger, store
      ensures store.Contents() == Killed(old(store.Contents()), mandateId, given, block, entries)
      ensures ledger == old(ledger) + KillEvents(old(store.Contents()), mandateId, given, block, entries)
    {
      hide Allocated;
      if mandateId in store.records && store.records[mandateId].purpose.Revocation? {
        return;
      }
      var agentId := if given.Some? then given
        else if mandateId in store.agents then Some(store.agents[mandateId]) else None;
      var index := if mandateId in store.indices then Some(store.indices[mandateId]) else None;
      if index.None? {
        index := store.Allocate(mandateId, agentId, entries);
      }
      var record := Record(mandateId, index, block.purpose, block.reason, block.issuedBy, agentId);
      store.Revoke(record);
      ledger := ledger + [MandateRevoked(record)];
    }

    method RevokeMandate(mandateId: string, block: Block)
      modifies this`ledger, store
      ensures State() == Step(old(State()), Op.RevokeMandate(mandateId, block), entries)
    {
      hide Killed, KillEvents;
      KillLocally(mandateId, None, block);
    }

    /** The block comes first, so that alone stops the agent; then each of its mandates. */
    method RevokeAgent(agentId: string, block: Block)
      modifies this`ledger, store
      ensures State() == Step(old(State()), Op.RevokeAgent(agentId, block), entries)
    {
      hide Killed, KillEvents;
      store.BlockAgent(agentId, block);
      ledger := ledger + [AgentRevoked(agentId, block)];
      var mandateIds := if agentId in store.byAgent then store.byAgent[agentId] else [];
      ghost var s, events := store.Contents(), ledger;
      assert mandateIds == MandatesFor(s, agentId) == MandatesFor(old(store.Contents()), agentId);
      var i := 0;
      while i < |mandateIds|
        invariant 0 <= i <= |mandateIds| && lastPublishedVersion == old(lastPublishedVersion)
        invariant store.Contents() == KilledAll(s, mandateIds[..i], agentId, block, entries)
        invariant ledger == events + KillAllEvents(s, mandateIds[..i], agentId, block, entries)
      {
        assert mandateIds[..i + 1][..i] == mandateIds[..i];
        KillLocally(mandateIds[i], Some(agentId), block);
        i := i + 1;
      }
      assert mandateIds[..i] == mandateIds;
    }

    /** Refused for a permanent kill. */
    method UnsuspendMandate(mandateId: string) returns (refused: bool)
      modifies this`ledger, store
      ensures State() == Step(old(State()), Unsuspend(mandateId), entries)
      ensures refused <==> Permanent(old(store.Contents()), mandateId)
    {
      if mandateId !in store.records {
        return false;
      }
      if !store.records[mandateId].purpose.Suspension? {
        return true;
      }
      store.Clear(mandateId);
      ledger := ledger + [MandateUnsuspended(mandateId)];
      return false;
    }

    method UnblockAgent(agentId: string) returns (refused: bool)
      modifies this`ledger, store
      ensures State() == Step(old(State()), Unblock(agentId), entries)
      ensures refused <==> agentId in old(store.blocked) && old(store.blocked)[agentId].purpose.Revocation?
    {
      if agentId !in store.blocked {
        return false;
      }
      if !store.blocked[agentId].purpose.Suspension? {
        return true;
      }
      store.UnblockAgent(agentId);
      ledger := ledger + [AgentUnblocked(agentId)];
      return false;
    }

    /** Replays the ledger, event by event, onto whatever the store holds; a fresh object
        becomes the registry a restart leaves, whose later operations go on from there. */
    method HydrateFromLedger()
      modifies this`lastPublishedVersion, store
      ensures Hydrated(store.Contents(), lastPublishedVersion)
        == ReplayFrom(Hydrated(old(store.Contents()), old(lastPublishedVersion)), ledger, entries)
      ensures ledger == old(ledger) && signingVersions == old(signingVersions)
      ensures old(State()) == NEW_REGISTRY.(events := ledger) ==>
        && State() == Reg(Replay(ledger, entries).store, Replay(ledger, entries).floor, ledger)
        && (forall r: Reg :: r.events == ledger ==> State() == Step(r, Restart, entries))
    {
      hide ReplayFrom;
      ReplayOfNone(Hydrated(store.Contents(), lastPublishedVersion), entries);
      var i := 0;
      while i < |ledger|
        invariant 0 <= i <= |ledger|
        invariant Hydrated(store.Contents(), lastPublishedVersion)
          == ReplayFrom(Hydrated(old(store.Contents()), old(lastPublishedVersion)), ledger[..i], entries)
      {
        ReplayOfSnoc(Hydrated(old(store.Contents()), old(lastPublishedVersion)), ledger[..i], ledger[i], entries);
        assert ledger[..i] + [ledger[i]] == ledger[..i + 1];
        ReplayEvent(ledger[i]);
        i := i + 1;
      }
      assert ledger[..i] == ledger;
    }

    method ReplayEvent(e: Event)
      modifies this`lastPublishedVersion, store
      ensures Hydrated(store.Contents(), lastPublishedVersion)
        == ReplayOne(Hydrated(old(store.Contents()), old(lastPublishedVersion)), e, entries)
    {
      hide Allocated;
      match e
      case IndexAssigned(m, a) =>
        var _ := store.Allocate(m, Some(a), entries);
      case MandateRevoked(r) =>
        var m := r.mandateId;
        var agentId := if r.agentId.Some? then r.agentId
          else if m in store.agents then Some(store.agents[m]) else None;
        var idx := store.Allocate(m, agentId, entries);
        store.Revoke(r.(index := if r.index.Some? then r.index else idx, agentId := agentId));
      case MandateUnsuspended(m) =>
        store.Clear(m);
      case AgentRevoked(a, block) =>
        store.BlockAgent(a, block);
      case AgentUnblocked(a) =>
        store.UnblockAgent(a);
      case ListPublished(v) =>
        lastPublishedVersion := if v > lastPublishedVersion then v else lastPublishedVersion;
    }

    // ---------- Publishing ----------

    method VersionFloor() returns (floor: int)
      ensures floor >= lastPublishedVersion && forall v :: v in signingVersions ==> v <= floor
      ensures floor == lastPublishedVersion || floor in signingVersions
    {
      floor := lastPublishedVersion;
      var todo := signingVersions;
      while todo != {}
        invariant todo <= signingVersions && floor >= lastPublishedVersion
        invariant forall v :: v in signingVersions && v !in todo ==> v <= floor
        invariant floor == lastPublishedVersion || floor in signingVersions
        decreases todo
      {
        HasMember(todo);
        var v: int :| v in todo;
        floor := if v > floor then v else floor;
        todo := todo - {v};
      }
    }

    /** The synchronous start of a publish: check the floor and reserve the version. */
    method BeginPublish(version: int) returns (reserved: bool)
      modifies this`signingVersions
      ensures forall issued :: Publishing(issued) == PublishNext(old(Publishing(issued)), Begin(version))
      ensures reserved <==> old(Reservable(version))
    {
      var floor := VersionFloor();
      if version < -(MAX_SAFE_INTEGER as int) || version > MAX_SAFE_INTEGER || version <= floor {
        return false;
      }
      signingVersions := signingVersions + {version};
      return true;
    }

    /** The end of a publish, once the signer answered or failed. */
    method EndPublish(version: int, signed: bool)
      requires version in signingVersions
      modifies this
      ensures store.Contents() == old(store.Contents())
      ensures signed ==> forall issued :: Publishing(issued + [version]) == PublishNext(old(Publishing(issued)), Signed(version))
      ensures !signed ==> forall issued :: Publishing(issued) == PublishNext(old(Publishing(issued)), SignerFailed(version))
      ensures signed ==> State() == Step(old(State()), FinishPublish(version), entries)
      ensures !signed ==> State() == old(State())
    {
      if signed {
        lastPublishedVersion := if version > lastPublishedVersion then version else lastPublishedVersion;
        ledger := ledger + [ListPublished(version)];
      }
      signingVersions := signingVersions - {version};
    }
  }

  lemma ReplayOfNone(h: Hydrated, capacity: nat)
    ensures ReplayFrom(h, [], capacity) == h
  {
  }

  lemma ReplayOfSnoc(h: Hydrated, events: seq<Event>, e: Event, capacity: nat)
    ensures ReplayFrom(h, events + [e], capacity) == ReplayOne(ReplayFrom(h, events, capacity), e, capacity)
  {
    assert (events + [e])[..|events|] == events;
  }

  lemma HasMember(versions: set<int>)
    requires versions != {}
    ensures exists v: int :: v in versions
  {
    if forall v: int :: v !in versions {
      assert false;
    }
  }
}

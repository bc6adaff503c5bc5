/** The revocation registry: operations that write the store and the audit ledger together,
  and the replay that rebuilds one from the other after a restart.
 */
module Registry {
  import opened Prelude
  import opened RevocationStore

  datatype Event =
    | IndexAssigned(mandateId: string, agentId: string)
    | MandateRevoked(record: Record)
    | MandateUnsuspended(mandateId: string)
    | AgentRevoked(agentId: string, block: Block)
    | AgentUnblocked(agentId: string)
    | ListPublished(version: int)

  /** The registry's store and published-version floor, with the ledger it writes. */
  datatype Reg = Reg(store: Store, floor: int, events: seq<Event>)

  const NEW_REGISTRY := Reg(NO_RECORDS, -1, [])

  datatype Op =
    | Assign(mandateId: string, agentId: string)
    | RevokeMandate(mandateId: string, block: Block)
    | RevokeAgent(agentId: string, block: Block)
    | Unsuspend(mandateId: string)
    | Unblock(agentId: string)
    | FinishPublish(version: int)
    | Restart

  function Max(a: int, b: int): int {
    if a > b then a else b
  }

  // ---------- The kill ----------

  predicate Permanent(s: Store, mandateId: string) {
    mandateId in s.records && s.records[mandateId].purpose.Revocation?
  }

  function AgentFor(s: Store, mandateId: string, given: Option<string>): Option<string> {
    if given.Some? then given else AgentOf(s, mandateId)
  }

  /** A mandate that was never registered gets a bit now, if one is left. */
  function Indexed(s: Store, mandateId: string, agentId: Option<string>, capacity: nat): Store {
    if mandateId in s.indices then s else Allocated(s, mandateId, agentId, capacity)
  }

  function KillRecord(s: Store, mandateId: string, given: Option<string>, block: Block, capacity: nat): Record {
    var agentId := AgentFor(s, mandateId, given);
    Record(mandateId, IndexOf(Indexed(s, mandateId, agentId, capacity), mandateId), block.purpose, block.reason, block.issuedBy, agentId)
  }

  function Killed(s: Store, mandateId: string, given: Option<string>, block: Block, capacity: nat): Store {
    if Permanent(s, mandateId) then s
    else Revoked(Indexed(s, mandateId, AgentFor(s, mandateId, given), capacity), KillRecord(s, mandateId, given, block, capacity))
  }

  function KillEvents(s: Store, mandateId: string, given: Option<string>, block: Block, capacity: nat): seq<Event> {
    if Permanent(s, mandateId) then [] else [MandateRevoked(KillRecord(s, mandateId, given, block, capacity))]
  }

  function KilledAll(s: Store, mandates: seq<string>, agentId: string, block: Block, capacity: nat): Store {
    if mandates == [] then s
    else Killed(KilledAll(s, mandates[..|mandates| - 1], agentId, block, capacity), mandates[|mandates| - 1], Some(agentId), block, capacity)
  }

  function KillAllEvents(s: Store, mandates: seq<string>, agentId: string, block: Block, capacity: nat): seq<Event> {
    if mandates == [] then []
    else
      var n := |mandates| - 1;
      KillAllEvents(s, mandates[..n], agentId, block, capacity)
      + KillEvents(KilledAll(s, mandates[..n], agentId, block, capacity), mandates[n], Some(agentId), block, capacity)
  }

  // ---------- Replay ----------

  datatype Hydrated = Hydrated(store: Store, floor: int)

  function ReplayOne(h: Hydrated, e: Event, capacity: nat): Hydrated {
    var s := h.store;
    match e
    case IndexAssigned(m, a) => h.(store := Allocated(s, m, Some(a), capacity))
    case MandateRevoked(record) =>
      var agentId := AgentFor(s, record.mandateId, record.agentId);
      var after := Allocated(s, record.mandateId, agentId, capacity);
      var index := if record.index.Some? then record.index else IndexOf(after, record.mandateId);
      h.(store := Revoked(after, record.(index := index, agentId := agentId)))
    case MandateUnsuspended(m) => h.(store := Cleared(s, m))
    case AgentRevoked(a, block) => h.(store := Blocked(s, a, block))
    case AgentUnblocked(a) => h.(store := Unblocked(s, a))
    case ListPublished(version) => h.(floor := Max(h.floor, version))
  }

  function ReplayFrom(h: Hydrated, events: seq<Event>, capacity: nat): Hydrated {
    if events == [] then h
    else ReplayOne(ReplayFrom(h, events[..|events| - 1], capacity), events[|events| - 1], capacity)
  }

  const FRESH := Hydrated(NO_RECORDS, -1)

  function Replay(events: seq<Event>, capacity: nat): Hydrated {
    ReplayFrom(FRESH, events, capacity)
  }

  // ---------- One operation ----------

  predicate Full(s: Store, mandateId: string, capacity: nat) {
    mandateId !in s.indices && s.next >= capacity
  }

  /** Operations the code refuses, or answers without writing, change nothing. A restart loses
      the memory and replays the ledger. */
  function Step(r: Reg, op: Op, capacity: nat): Reg {
    var s := r.store;
    match op
    case Assign(m, a) =>
      if Full(s, m, capacity) then r
      else Reg(Allocated(s, m, Some(a), capacity), r.floor, r.events + [IndexAssigned(m, a)])
    case RevokeMandate(m, block) =>
      Reg(Killed(s, m, None, block, capacity), r.floor, r.events + KillEvents(s, m, None, block, capacity))
    case RevokeAgent(a, block) =>
      var blocked := Blocked(s, a, block);
      Reg(KilledAll(blocked, MandatesFor(s, a), a, block, capacity), r.floor,
          r.events + [AgentRevoked(a, block)] + KillAllEvents(blocked, MandatesFor(s, a), a, block, capacity))
    case Unsuspend(m) =>
      if m !in s.records || s.records[m].purpose.Revocation? then r
      else Reg(Cleared(s, m), r.floor, r.events + [MandateUnsuspended(m)])
    case Unblock(a) =>
      if a !in s.blocked || s.blocked[a].purpose.Revocation? then r
      else Reg(Unblocked(s, a), r.floor, r.events + [AgentUnblocked(a)])
    case FinishPublish(version) =>
      Reg(s, Max(r.floor, version), r.events + [ListPublished(version)])
    case Restart =>
      var h := Replay(r.events, capacity);
      Reg(h.store, h.floor, r.events)
  }

  function Run(ops: seq<Op>, capacity: nat): Reg {
    if ops == [] then NEW_REGISTRY else Step(Run(ops[..|ops| - 1], capacity), ops[|ops| - 1], capacity)
  }

  // ---------- Replay, event by event ----------

  lemma {:induction false} ReplayConcat(h: Hydrated, a: seq<Event>, b: seq<Event>, capacity: nat)
    ensures ReplayFrom(h, a + b, capacity) == ReplayFrom(ReplayFrom(h, a, capacity), b, capacity)
  {
    if b == [] {
      assert a + b == a;
    } else {
      assert (a + b)[..|a + b| - 1] == a + b[..|b| - 1];
      ReplayConcat(h, a, b[..|b| - 1], capacity);
    }
  }

  lemma ReplayOneMore(h: Hydrated, e: Event, capacity: nat)
    ensures ReplayFrom(h, [e], capacity) == ReplayOne(h, e, capacity)
  {
    assert [e][..0] == [];
    assert ReplayFrom(h, [], capacity) == h;
  }

  /** A restart at this point would rebuild exactly this registry. */
  predicate InSync(r: Reg, capacity: nat) {
    Replay(r.events, capacity) == Hydrated(r.store, r.floor)
  }

  // ---------- Every operation keeps the store sound ----------

  lemma KillKeeps(s: Store, mandateId: string, given: Option<string>, block: Block, capacity: nat)
    requires Sound(s, capacity)
    ensures Sound(Killed(s, mandateId, given, block, capacity), capacity)
  {
    var agentId := AgentFor(s, mandateId, given);
    AllocateKeeps(s, mandateId, agentId, capacity);
    hide Sound, LinkedIf;
    if !Permanent(s, mandateId) {
      RevokeKeeps(Indexed(s, mandateId, agentId, capacity), KillRecord(s, mandateId, given, block, capacity), capacity);
    }
  }

  lemma {:induction false} KillAllKeeps(s: Store, mandates: seq<string>, agentId: string, block: Block, capacity: nat)
    requires Sound(s, capacity)
    ensures Sound(KilledAll(s, mandates, agentId, block, capacity), capacity)
  {
    hide Sound, Killed;
    if mandates != [] {
      var n := |mandates| - 1;
      KillAllKeeps(s, mandates[..n], agentId, block, capacity);
      KillKeeps(KilledAll(s, mandates[..n], agentId, block, capacity), mandates[n], Some(agentId), block, capacity);
    }
  }

  // ---------- What every replay rebuilds ----------

  /** The replayed store differs at most in which of its agents a mandate is linked to: the
      same bits, records, blocks and lists, and the same mandates linked. */
  ghost predicate Mirrors(s: Store, h: Store) {
    && h == s.(agents := h.agents)
    && h.agents.Keys == s.agents.Keys
    && forall m :: m in h.agents ==> m in MandatesFor(s, h.agents[m])
  }

  ghost predicate ReplayMirrors(r: Reg, capacity: nat) {
    var h := Replay(r.events, capacity);
    Mirrors(r.store, h.store) && h.floor == r.floor
  }

  lemma MirrorsItself(s: Store)
    requires LinksKnown(s)
    ensures Mirrors(s, s)
  {
  }

  lemma MirrorIsSound(s: Store, h: Store, capacity: nat)
    requires Sound(s, capacity) && Mirrors(s, h)
    ensures Sound(h, capacity)
  {
    assert forall a :: MandatesFor(h, a) == MandatesFor(s, a);
    forall m | m in h.records
      ensures RecordIndexed(h, capacity, m)
    {
      assert RecordIndexed(s, capacity, m);
    }
  }

  lemma LinkMirrors(s: Store, h: Store, mandateId: string, agentId: Option<string>)
    requires Mirrors(s, h)
    ensures Mirrors(LinkedIf(s, mandateId, agentId), LinkedIf(h, mandateId, agentId))
  {
    if agentId.Some? {
      LinkedLists(s, mandateId, agentId.value);
      assert MandatesFor(h, agentId.value) == MandatesFor(s, agentId.value);
    }
  }

  lemma AllocateMirrors(s: Store, h: Store, mandateId: string, agentId: Option<string>, capacity: nat)
    requires Mirrors(s, h)
    ensures Mirrors(Allocated(s, mandateId, agentId, capacity), Allocated(h, mandateId, agentId, capacity))
  {
    hide LinkedIf;
    LinkMirrors(s, h, mandateId, agentId);
    NewIndexMirrors(s, h, mandateId);
    LinkMirrors(WithNewIndex(s, mandateId), WithNewIndex(h, mandateId), mandateId, agentId);
  }

  lemma NewIndexMirrors(s: Store, h: Store, mandateId: string)
    requires Mirrors(s, h)
    ensures Mirrors(WithNewIndex(s, mandateId), WithNewIndex(h, mandateId))
  {
    assert forall a :: MandatesFor(WithNewIndex(s, mandateId), a) == MandatesFor(s, a);
  }

  /** Linking a listed mandate once more moves its link and nothing else. */
  lemma RelinkMirrors(s: Store, h: Store, mandateId: string, agentId: Option<string>)
    requires Mirrors(s, h) && (agentId.Some? ==> mandateId in s.agents && mandateId in MandatesFor(s, agentId.value))
    ensures Mirrors(s, LinkedIf(h, mandateId, agentId))
  {
    if agentId.Some? {
      assert MandatesFor(h, agentId.value) == MandatesFor(s, agentId.value);
      assert h.byAgent[agentId.value := h.byAgent[agentId.value]] == h.byAgent;
    }
  }

  lemma SameLinksMirror(s: Store, h: Store, s': Store, h': Store)
    requires Mirrors(s, h) && h' == s'.(agents := h'.agents)
    requires s'.agents == s.agents && s'.byAgent == s.byAgent && h'.agents == h.agents
    ensures Mirrors(s', h')
  {
    assert forall a :: MandatesFor(s', a) == MandatesFor(s, a);
  }

  ghost predicate KillMirrors(s: Store, h: Hydrated, mandateId: string, given: Option<string>, block: Block, capacity: nat) {
    var r := ReplayFrom(h, KillEvents(s, mandateId, given, block, capacity), capacity);
    Mirrors(Killed(s, mandateId, given, block, capacity), r.store) && r.floor == h.floor
  }

  /** The agent a kill is replayed under is the one it was made under. */
  lemma SameAgent(s: Store, h: Store, mandateId: string, given: Option<string>)
    requires Mirrors(s, h)
    ensures AgentFor(h, mandateId, AgentFor(s, mandateId, given)) == AgentFor(s, mandateId, given)
  {
  }

  lemma AgentIsListed(s: Store, mandateId: string, given: Option<string>)
    requires LinksKnown(s) && (given.Some? ==> mandateId in MandatesFor(s, given.value))
    ensures var a := AgentFor(s, mandateId, given);
      a.Some? ==> mandateId in s.agents && mandateId in s.indices && mandateId in MandatesFor(s, a.value)
  {
  }

  lemma ReplayKillMirrors(s: Store, h: Hydrated, mandateId: string, given: Option<string>, block: Block, capacity: nat)
    requires LinksKnown(s) && Mirrors(s, h.store)
    requires given.Some? ==> mandateId in MandatesFor(s, given.value)
    ensures KillMirrors(s, h, mandateId, given, block, capacity)
  {
    hide Allocated, LinkedIf, Mirrors, LinksKnown, MandatesFor;
    if Permanent(s, mandateId) {
    } else {
      var record := KillRecord(s, mandateId, given, block, capacity);
      var agentId := record.agentId;
      ReplayOneMore(h, MandateRevoked(record), capacity);
      SameAgent(s, h.store, mandateId, given);
      AgentIsListed(s, mandateId, given);
      AllocatedWhenIndexed(s, mandateId, agentId, capacity);
      AllocatedWhenIndexed(h.store, mandateId, agentId, capacity);
      MirrorIndices(s, h.store);
      var live, replayed := Indexed(s, mandateId, agentId, capacity), Allocated(h.store, mandateId, agentId, capacity);
      if mandateId in s.indices {
        RelinkMirrors(s, h.store, mandateId, agentId);
      } else {
        AllocateMirrors(s, h.store, mandateId, agentId, capacity);
      }
      MirrorIndices(live, replayed);
      RecordMirrors(live, replayed, record);
    }
  }

  lemma MirrorIndices(s: Store, h: Store)
    requires Mirrors(s, h)
    ensures h.indices == s.indices
  {
  }

  lemma RecordMirrors(s: Store, h: Store, record: Record)
    requires Mirrors(s, h)
    ensures Mirrors(Revoked(s, record), Revoked(h, record))
  {
    SameLinksMirror(s, h, Revoked(s, record), Revoked(h, record));
  }

  ghost predicate KillAllMirrors(s: Store, h: Hydrated, mandates: seq<string>, agentId: string, block: Block, capacity: nat) {
    var r := ReplayFrom(h, KillAllEvents(s, mandates, agentId, block, capacity), capacity);
    Mirrors(KilledAll(s, mandates, agentId, block, capacity), r.store) && r.floor == h.floor
  }

  lemma {:induction false} ReplayKillAllMirrors(s: Store, h: Hydrated, mandates: seq<string>, agentId: string, block: Block, capacity: nat)
    requires LinksKnown(s) && Mirrors(s, h.store)
    requires forall m :: m in mandates ==> m in s.indices && m in MandatesFor(s, agentId)
    ensures KillAllMirrors(s, h, mandates, agentId, block, capacity)
  {
    if mandates != [] {
      hide Killed, KillEvents, Mirrors, LinksKnown, ReplayFrom;
      var n := |mandates| - 1;
      var k, before := KilledAll(s, mandates[..n], agentId, block, capacity), KillAllEvents(s, mandates[..n], agentId, block, capacity);
      assert mandates[n] in mandates;
      ReplayKillAllMirrors(s, h, mandates[..n], agentId, block, capacity);
      KillAllOnlyRecords(s, mandates[..n], agentId, block, capacity);
      SameLinks(s, k);
      ReplayKillMirrors(k, ReplayFrom(h, before, capacity), mandates[n], Some(agentId), block, capacity);
      ReplayConcat(h, before, KillEvents(k, mandates[n], Some(agentId), block, capacity), capacity);
    }
  }

  /** Whatever is done, relinking and restarts included, the ledger stays a mirror. */
  lemma StepMirrors(r: Reg, op: Op, capacity: nat)
    requires Sound(r.store, capacity) && ReplayMirrors(r, capacity)
    ensures ReplayMirrors(Step(r, op, capacity), capacity)
  {
    hide OwnBits, RecordsIndexed, Mirrors, ReplayFrom, Killed, KillEvents, KilledAll, KillAllEvents;
    var h := Replay(r.events, capacity);
    match op
    case RevokeMandate(m, block) =>
      ReplayConcat(FRESH, r.events, KillEvents(r.store, m, None, block, capacity), capacity);
      ReplayKillMirrors(r.store, h, m, None, block, capacity);
    case RevokeAgent(a, block) =>
      RevokeAgentMirrors(r, h, a, block, capacity);
    case Restart =>
      MirrorIsSound(r.store, h.store, capacity);
      MirrorsItself(h.store);
    case _ =>
      SingleEventMirrors(r, h, op, capacity);
  }

  lemma BlockTouchesBlocks(s: Store, agentId: string, block: Block)
    ensures Blocked(s, agentId, block) == s.(blocked := Blocked(s, agentId, block).blocked)
  {
  }

  lemma BlockMirrors(s: Store, h: Store, agentId: string, block: Block)
    requires Mirrors(s, h)
    ensures Mirrors(Blocked(s, agentId, block), Blocked(h, agentId, block))
  {
    SameLinksMirror(s, h, Blocked(s, agentId, block), Blocked(h, agentId, block));
  }

  lemma ListedIsIndexed(s: Store, agentId: string)
    requires LinksKnown(s)
    ensures forall m :: m in MandatesFor(s, agentId) ==> m in s.indices
  {
  }

  lemma RevokeAgentMirrors(r: Reg, h: Hydrated, a: string, block: Block, capacity: nat)
    requires LinksKnown(r.store) && h == Replay(r.events, capacity) && Mirrors(r.store, h.store) && h.floor == r.floor
    ensures ReplayMirrors(Step(r, RevokeAgent(a, block), capacity), capacity)
  {
    hide ReplayFrom, KilledAll, KillAllEvents, Mirrors, LinksKnown, Blocked;
    BlockTouchesBlocks(r.store, a, block);
    BlockTouchesBlocks(h.store, a, block);
    AgentsOnly(r.store, h.store);
    BlockMirrors(r.store, h.store, a, block);
    var s, h' := Blocked(r.store, a, block), h.(store := Blocked(h.store, a, block));
    var mandates := MandatesFor(r.store, a);
    assert MandatesFor(s, a) == mandates;
    var events := KillAllEvents(s, mandates, a, block, capacity);
    ReplayConcat(FRESH, r.events, [AgentRevoked(a, block)], capacity);
    ReplayOneMore(h, AgentRevoked(a, block), capacity);
    ReplayConcat(FRESH, r.events + [AgentRevoked(a, block)], events, capacity);
    SameLinks(r.store, s);
    ListedIsIndexed(s, a);
    ReplayKillAllMirrors(s, h', mandates, a, block, capacity);
  }

  /** The operations that write at most one event, and no kill. */
  lemma SingleEventMirrors(r: Reg, h: Hydrated, op: Op, capacity: nat)
    requires op.Assign? || op.Unsuspend? || op.Unblock? || op.FinishPublish?
    requires h == Replay(r.events, capacity) && Mirrors(r.store, h.store) && h.floor == r.floor
    ensures ReplayMirrors(Step(r, op, capacity), capacity)
  {
    hide ReplayFrom, Allocated, MandatesFor, Mirrors;
    OneEvent(r, op, capacity);
    var s, h', r' := r.store, h.store, Step(r, op, capacity);
    if r'.events != r.events {
      ReplayConcat(FRESH, r.events, [EventOf(op)], capacity);
      ReplayOneMore(h, EventOf(op), capacity);
      match op
      case Assign(m, a) => AllocateMirrors(s, h', m, Some(a), capacity);
      case Unsuspend(m) => AgentsOnly(s, h'); SameLinksMirror(s, h', Cleared(s, m), Cleared(h', m));
      case Unblock(a) => AgentsOnly(s, h'); SameLinksMirror(s, h', Unblocked(s, a), Unblocked(h', a));
      case FinishPublish(_) =>
    }
  }

  lemma AgentsOnly(s: Store, h: Store)
    requires Mirrors(s, h)
    ensures h == s.(agents := h.agents)
  {
  }

  function EventOf(op: Op): Event
    requires op.Assign? || op.Unsuspend? || op.Unblock? || op.FinishPublish?
  {
    match op
    case Assign(m, a) => IndexAssigned(m, a)
    case Unsuspend(m) => MandateUnsuspended(m)
    case Unblock(a) => AgentUnblocked(a)
    case FinishPublish(v) => ListPublished(v)
  }

  lemma OneEvent(r: Reg, op: Op, capacity: nat)
    requires op.Assign? || op.Unsuspend? || op.Unblock? || op.FinishPublish?
    ensures Step(r, op, capacity) == r || Step(r, op, capacity).events == r.events + [EventOf(op)]
  {
    hide Allocated;
  }

  lemma StepKeepsSound(r: Reg, op: Op, capacity: nat)
    requires Sound(r.store, capacity) && ReplayMirrors(r, capacity)
    ensures Sound(Step(r, op, capacity).store, capacity)
  {
    hide Sound, Killed, KilledAll, KillEvents, KillAllEvents, Allocated, Mirrors;
    match op
    case Assign(m, a) => AllocateKeeps(r.store, m, Some(a), capacity);
    case RevokeMandate(m, block) => KillKeeps(r.store, m, None, block, capacity);
    case RevokeAgent(a, block) =>
      OthersKeep(r.store, Blocked(r.store, a, block), capacity);
      KillAllKeeps(Blocked(r.store, a, block), MandatesFor(r.store, a), a, block, capacity);
    case Unsuspend(m) => OthersKeep(r.store, Cleared(r.store, m), capacity);
    case Unblock(a) => OthersKeep(r.store, Unblocked(r.store, a), capacity);
    case FinishPublish(_) =>
    case Restart => MirrorIsSound(r.store, Replay(r.events, capacity).store, capacity);
  }

  /** In every reachable registry, whatever is relinked and however often it restarts, no two
      mandates share a bit, and a replay of its ledger rebuilds every bit, record, block, list
      and the version floor: only which agent a mandate is linked to may differ. */
  lemma {:induction false} RunIsSound(ops: seq<Op>, capacity: nat)
    ensures Sound(Run(ops, capacity).store, capacity)
    ensures ReplayMirrors(Run(ops, capacity), capacity)
  {
    if ops == [] {
      EmptyIsSound(capacity);
    } else {
      hide Sound, Step, ReplayMirrors;
      var r := Run(ops[..|ops| - 1], capacity);
      RunIsSound(ops[..|ops| - 1], capacity);
      StepKeepsSound(r, ops[|ops| - 1], capacity);
      StepMirrors(r, ops[|ops| - 1], capacity);
    }
  }

  // ---------- What is permanent stays ----------

  ghost predicate Keeps(s: Store, s': Store) {
    && (forall m :: Permanent(s, m) ==> m in s'.records && s'.records[m] == s.records[m])
    && (forall a :: a in s.blocked && s.blocked[a].purpose.Revocation? ==> a in s'.blocked && s'.blocked[a] == s.blocked[a])
  }

  lemma KillPermanence(s: Store, mandateId: string, given: Option<string>, block: Block, capacity: nat)
    ensures Keeps(s, Killed(s, mandateId, given, block, capacity))
    ensures Killed(s, mandateId, given, block, capacity).blocked == s.blocked
  {
  }

  lemma {:induction false} KillAllPermanence(s: Store, mandates: seq<string>, agentId: string, block: Block, capacity: nat)
    ensures Keeps(s, KilledAll(s, mandates, agentId, block, capacity))
  {
    hide Killed;
    if mandates != [] {
      var n := |mandates| - 1;
      KillAllPermanence(s, mandates[..n], agentId, block, capacity);
      KillPermanence(KilledAll(s, mandates[..n], agentId, block, capacity), mandates[n], Some(agentId), block, capacity);
    }
  }

  lemma MirrorPermanence(s: Store, h: Store)
    requires Mirrors(s, h)
    ensures Keeps(s, h)
  {
  }

  /** Assigning, lifting, unblocking and publishing lift nothing permanent. */
  lemma SingleEventPermanence(r: Reg, op: Op, capacity: nat)
    requires op.Assign? || op.Unsuspend? || op.Unblock? || op.FinishPublish?
    ensures Keeps(r.store, Step(r, op, capacity).store)
  {
  }

  lemma BlockPermanence(s: Store, agentId: string, block: Block)
    ensures Keeps(s, Blocked(s, agentId, block))
  {
  }

  lemma KeepsTransitive(a: Store, b: Store, c: Store)
    requires Keeps(a, b) && Keeps(b, c)
    ensures Keeps(a, c)
  {
  }

  lemma StepPermanence(r: Reg, op: Op, capacity: nat)
    requires ReplayMirrors(r, capacity)
    ensures Keeps(r.store, Step(r, op, capacity).store)
  {
    hide Killed, KilledAll, KillEvents, KillAllEvents, Mirrors, Keeps, Blocked, Replay;
    match op
    case RevokeMandate(m, block) => KillPermanence(r.store, m, None, block, capacity);
    case RevokeAgent(a, block) =>
      var blocked := Blocked(r.store, a, block);
      BlockPermanence(r.store, a, block);
      KillAllPermanence(blocked, MandatesFor(r.store, a), a, block, capacity);
      KeepsTransitive(r.store, blocked, Step(r, op, capacity).store);
    case Restart => MirrorPermanence(r.store, Replay(r.events, capacity).store);
    case _ => SingleEventPermanence(r, op, capacity);
  }

  /** A permanent kill or block is never lifted nor rewritten, whatever is asked later, and
      no restart loses it. */
  lemma {:induction false} PermanentForever(ops: seq<Op>, more: seq<Op>, capacity: nat)
    ensures Keeps(Run(ops, capacity).store, Run(ops + more, capacity).store)
  {
    hide Step;
    if more == [] {
      assert ops + more == ops;
    } else {
      var n := |more| - 1;
      assert (ops + more)[..|ops + more| - 1] == ops + more[..n];
      PermanentForever(ops, more[..n], capacity);
      RunIsSound(ops + more[..n], capacity);
      StepPermanence(Run(ops + more[..n], capacity), more[n], capacity);
    }
  }

  // ---------- Replay rebuilds the registry ----------

  lemma LinkingAgainIsNothing(s: Store, mandateId: string, agentId: Option<string>)
    requires LinksKnown(s) && agentId == AgentOf(s, mandateId)
    ensures LinkedIf(s, mandateId, agentId) == s
  {
    if agentId.Some? {
      assert s.agents[mandateId := agentId.value] == s.agents;
      assert s.byAgent[agentId.value := s.byAgent[agentId.value]] == s.byAgent;
    }
  }

  /** Replaying the kill of a mandate under its own agent gives the killed store. */
  lemma ReplayKill(s: Store, floor: int, mandateId: string, block: Block, capacity: nat)
    requires Sound(s, capacity)
    ensures ReplayFrom(Hydrated(s, floor), KillEvents(s, mandateId, None, block, capacity), capacity)
      == Hydrated(Killed(s, mandateId, None, block, capacity), floor)
  {
    hide Allocated, LinkedIf, OwnBits, RecordsIndexed;
    if Permanent(s, mandateId) {
    } else {
      var record := KillRecord(s, mandateId, None, block, capacity);
      ReplayOneMore(Hydrated(s, floor), MandateRevoked(record), capacity);
      AllocatedWhenIndexed(s, mandateId, record.agentId, capacity);
      LinkingAgainIsNothing(s, mandateId, record.agentId);
    }
  }

  lemma AllocatedWhenIndexed(s: Store, mandateId: string, agentId: Option<string>, capacity: nat)
    ensures Allocated(s, mandateId, agentId, capacity) ==
      if mandateId in s.indices then LinkedIf(s, mandateId, agentId) else Indexed(s, mandateId, agentId, capacity)
  {
  }

  /** The mandates an agent-wide kill writes records for. */
  function KilledSet(s: Store, mandates: seq<string>, agentId: string, block: Block, capacity: nat): set<string> {
    if mandates == [] then {}
    else
      var n := |mandates| - 1;
      KilledSet(s, mandates[..n], agentId, block, capacity)
      + if Permanent(KilledAll(s, mandates[..n], agentId, block, capacity), mandates[n]) then {} else {mandates[n]}
  }

  function Overlaid(agents: map<string, string>, killed: set<string>, agentId: string): map<string, string> {
    agents + map m | m in killed :: agentId
  }

  /** Killing mandates that already have bits changes records only. */
  lemma {:induction false} KillAllOnlyRecords(s: Store, mandates: seq<string>, agentId: string, block: Block, capacity: nat)
    requires forall m :: m in mandates ==> m in s.indices
    ensures var k := KilledAll(s, mandates, agentId, block, capacity); k == s.(records := k.records)
  {
    if mandates != [] {
      hide Allocated;
      var n := |mandates| - 1;
      assert mandates[n] in mandates;
      KillAllOnlyRecords(s, mandates[..n], agentId, block, capacity);
    }
  }

  predicate ReplaysTo(s: Store, floor: int, mandates: seq<string>, agentId: string, block: Block, capacity: nat) {
    var k := KilledAll(s, mandates, agentId, block, capacity);
    ReplayFrom(Hydrated(s, floor), KillAllEvents(s, mandates, agentId, block, capacity), capacity)
    == Hydrated(k.(agents := Overlaid(s.agents, KilledSet(s, mandates, agentId, block, capacity), agentId)), floor)
  }

  /** Replaying one more kill of the loop, from a store whose links have drifted. */
  lemma ReplayNextKill(k: Store, agents: map<string, string>, floor: int, m: string, agentId: string, block: Block, capacity: nat)
    requires m in k.indices && m in MandatesFor(k, agentId)
    ensures ReplayFrom(Hydrated(k.(agents := agents), floor), KillEvents(k, m, Some(agentId), block, capacity), capacity)
      == Hydrated(Killed(k, m, Some(agentId), block, capacity).(agents := if Permanent(k, m) then agents else agents[m := agentId]), floor)
  {
    var h := Hydrated(k.(agents := agents), floor);
    if Permanent(k, m) {
    } else {
      ReplayOneMore(h, MandateRevoked(KillRecord(k, m, Some(agentId), block, capacity)), capacity);
      assert k.byAgent[agentId := k.byAgent[agentId]] == k.byAgent;
    }
  }

  lemma {:induction false} ReplayKillAll(s: Store, floor: int, mandates: seq<string>, agentId: string, block: Block, capacity: nat)
    requires forall m :: m in mandates ==> m in s.indices && m in MandatesFor(s, agentId)
    ensures ReplaysTo(s, floor, mandates, agentId, block, capacity)
  {
    if mandates == [] {
      assert Overlaid(s.agents, {}, agentId) == s.agents;
    } else {
      var n := |mandates| - 1;
      var before, m := mandates[..n], mandates[n];
      assert m in mandates;
      ReplayKillAll(s, floor, before, agentId, block, capacity);
      KillAllOnlyRecords(s, before, agentId, block, capacity);
      ReplayKillAllStep(s, floor, before, m, mandates, agentId, block, capacity);
    }
  }

  lemma ReplayKillAllStep(s: Store, floor: int, before: seq<string>, m: string, mandates: seq<string>, agentId: string, block: Block, capacity: nat)
    requires mandates == before + [m] && m in s.indices && m in MandatesFor(s, agentId)
    requires ReplaysTo(s, floor, before, agentId, block, capacity)
    requires var k := KilledAll(s, before, agentId, block, capacity); k == s.(records := k.records)
    ensures ReplaysTo(s, floor, mandates, agentId, block, capacity)
  {
    hide Killed, KillEvents, Permanent;
    var k := KilledAll(s, before, agentId, block, capacity);
    var agents := Overlaid(s.agents, KilledSet(s, before, agentId, block, capacity), agentId);
    assert mandates[..|mandates| - 1] == before;
    ReplayConcat(Hydrated(s, floor), KillAllEvents(s, before, agentId, block, capacity), KillEvents(k, m, Some(agentId), block, capacity), capacity);
    ReplayNextKill(k, agents, floor, m, agentId, block, capacity);
    OverlayGrows(s.agents, KilledSet(s, before, agentId, block, capacity), agentId, m);
  }

  lemma OverlayGrows(agents: map<string, string>, killed: set<string>, agentId: string, m: string)
    ensures Overlaid(agents, killed, agentId)[m := agentId] == Overlaid(agents, killed + {m}, agentId)
    ensures killed + {} == killed
  {
  }

  lemma {:induction false} KilledSetExact(s: Store, mandates: seq<string>, agentId: string, block: Block, capacity: nat, m: string)
    ensures m in KilledSet(s, mandates, agentId, block, capacity) <==> m in mandates && !Permanent(s, m)
    ensures m !in mandates ==> (Permanent(KilledAll(s, mandates, agentId, block, capacity), m) <==> Permanent(s, m))
    ensures Permanent(s, m) ==> Permanent(KilledAll(s, mandates, agentId, block, capacity), m)
  {
    if mandates != [] {
      hide Allocated, Indexed;
      var n := |mandates| - 1;
      KilledSetExact(s, mandates[..n], agentId, block, capacity, m);
      assert mandates == mandates[..n] + [mandates[n]];
    }
  }

  /** An agent-wide kill rewrites no link: each mandate it kills is still linked to this agent. */
  predicate MovesNobody(s: Store, op: Op) {
    op.RevokeAgent? ==>
      forall m :: m in MandatesFor(s, op.agentId) ==> Permanent(s, m) || AgentOf(s, m) == Some(op.agentId)
  }

  lemma OverlayIsNothing(agents: map<string, string>, killed: set<string>, agentId: string)
    requires killed <= agents.Keys
    ensures Overlaid(agents, killed, agentId) == agents <==> forall m :: m in killed ==> agents[m] == agentId
  {
    if Overlaid(agents, killed, agentId) == agents {
      forall m | m in killed
        ensures agents[m] == agentId
      {
        assert Overlaid(agents, killed, agentId)[m] == agentId;
      }
    }
  }

  lemma RevokeAgentSync(r: Reg, a: string, block: Block, capacity: nat)
    requires Sound(r.store, capacity) && InSync(r, capacity)
    ensures InSync(Step(r, RevokeAgent(a, block), capacity), capacity) <==> MovesNobody(r.store, RevokeAgent(a, block))
  {
    hide OwnBits, RecordsIndexed, KilledAll, KillAllEvents, KilledSet, ReplayFrom, Overlaid;
    var s := Blocked(r.store, a, block);
    var mandates := MandatesFor(r.store, a);
    var events := KillAllEvents(s, mandates, a, block, capacity);
    ReplayConcat(FRESH, r.events, [AgentRevoked(a, block)], capacity);
    ReplayOneMore(Hydrated(r.store, r.floor), AgentRevoked(a, block), capacity);
    ReplayConcat(FRESH, r.events + [AgentRevoked(a, block)], events, capacity);
    assert MandatesFor(s, a) == mandates;
    ReplayKillAll(s, r.floor, mandates, a, block, capacity);
    KillAllOnlyRecords(s, mandates, a, block, capacity);
    var killed := KilledSet(s, mandates, a, block, capacity);
    forall m
      ensures m in killed <==> m in mandates && !Permanent(r.store, m)
    {
      KilledSetExact(s, mandates, a, block, capacity, m);
    }
    OverlayIsNothing(s.agents, killed, a);
  }

  /** Exactly when an operation leaves the registry rebuildable from its ledger. */
  lemma StepSync(r: Reg, op: Op, capacity: nat)
    requires Sound(r.store, capacity) && InSync(r, capacity)
    ensures InSync(Step(r, op, capacity), capacity) <==> MovesNobody(r.store, op)
  {
    hide Killed, KillEvents, KilledAll, KillAllEvents, ReplayFrom;
    match op
    case RevokeAgent(a, block) =>
      RevokeAgentSync(r, a, block, capacity);
    case RevokeMandate(m, block) =>
      ReplayConcat(FRESH, r.events, KillEvents(r.store, m, None, block, capacity), capacity);
      ReplayKill(r.store, r.floor, m, block, capacity);
    case Restart =>
    case _ =>
      SingleEventSync(r, op, capacity);
  }

  lemma SingleEventSync(r: Reg, op: Op, capacity: nat)
    requires op.Assign? || op.Unsuspend? || op.Unblock? || op.FinishPublish?
    requires InSync(r, capacity)
    ensures InSync(Step(r, op, capacity), capacity)
  {
    hide ReplayFrom, Allocated;
    OneEvent(r, op, capacity);
    if Step(r, op, capacity) != r {
      ReplayConcat(FRESH, r.events, [EventOf(op)], capacity);
      ReplayOneMore(Hydrated(r.store, r.floor), EventOf(op), capacity);
    }
  }

  /** The run as long as every operation so far moved nobody. */
  predicate NeverMoves(ops: seq<Op>, capacity: nat) {
    forall i :: 0 <= i < |ops| ==> MovesNobody(Run(ops[..i], capacity).store, ops[i])
  }

  lemma {:induction false} HydrationRebuilds(ops: seq<Op>, capacity: nat)
    requires NeverMoves(ops, capacity)
    ensures Replay(Run(ops, capacity).events, capacity) == Hydrated(Run(ops, capacity).store, Run(ops, capacity).floor)
  {
    hide Step, MovesNobody, Sound;
    if ops != [] {
      var n := |ops| - 1;
      assert forall i :: 0 <= i <= n ==> ops[..n][..i] == ops[..i];
      HydrationRebuilds(ops[..n], capacity);
      RunIsSound(ops[..n], capacity);
      StepSync(Run(ops[..n], capacity), ops[n], capacity);
    }
  }

  // ---------- One agent per mandate ----------

  /** Every mandate is only ever assigned to the agent `owner` names. */
  predicate OneAgentEach(ops: seq<Op>, owner: map<string, string>) {
    forall i :: 0 <= i < |ops| && ops[i].Assign? ==> ops[i].mandateId in owner && owner[ops[i].mandateId] == ops[i].agentId
  }

  /** Mandates are linked to their owners only, in both directions. */
  ghost predicate LinkedToOwners(s: Store, owner: map<string, string>) {
    && (forall m :: m in s.agents ==> m in owner && s.agents[m] == owner[m])
    && (forall m, a :: m in MandatesFor(s, a) ==> m in owner && owner[m] == a)
  }

  lemma LinkingOwner(s: Store, mandateId: string, agentId: Option<string>, owner: map<string, string>)
    requires LinkedToOwners(s, owner)
    requires agentId.Some? ==> mandateId in owner && owner[mandateId] == agentId.value
    ensures LinkedToOwners(LinkedIf(s, mandateId, agentId), owner)
  {
    if agentId.Some? {
      LinkedLists(s, mandateId, agentId.value);
    }
  }

  lemma SameLinksOwners(s: Store, s': Store, owner: map<string, string>)
    requires LinkedToOwners(s, owner) && s'.agents == s.agents && s'.byAgent == s.byAgent
    ensures LinkedToOwners(s', owner)
  {
    assert forall a :: MandatesFor(s', a) == MandatesFor(s, a);
  }

  lemma AllocatingOwner(s: Store, mandateId: string, agentId: Option<string>, owner: map<string, string>, capacity: nat)
    requires LinkedToOwners(s, owner)
    requires agentId.Some? ==> mandateId in owner && owner[mandateId] == agentId.value
    ensures LinkedToOwners(Allocated(s, mandateId, agentId, capacity), owner)
  {
    hide LinkedIf, LinkedToOwners;
    LinkingOwner(s, mandateId, agentId, owner);
    SameLinksOwners(s, WithNewIndex(s, mandateId), owner);
    LinkingOwner(WithNewIndex(s, mandateId), mandateId, agentId, owner);
  }

  lemma KillingOwner(s: Store, mandateId: string, given: Option<string>, block: Block, owner: map<string, string>, capacity: nat)
    requires LinkedToOwners(s, owner)
    requires given.Some? ==> mandateId in owner && owner[mandateId] == given.value
    ensures LinkedToOwners(Killed(s, mandateId, given, block, capacity), owner)
  {
    hide Allocated;
    var agentId := AgentFor(s, mandateId, given);
    AllocatingOwner(s, mandateId, agentId, owner, capacity);
    var indexed := Indexed(s, mandateId, agentId, capacity);
    SameLinksOwners(indexed, Revoked(indexed, KillRecord(s, mandateId, given, block, capacity)), owner);
  }

  lemma {:induction false} KillingAllOwner(s: Store, mandates: seq<string>, a: string, block: Block, owner: map<string, string>, capacity: nat)
    requires LinkedToOwners(s, owner) && forall m :: m in mandates ==> m in owner && owner[m] == a
    ensures LinkedToOwners(KilledAll(s, mandates, a, block, capacity), owner)
  {
    hide LinkedToOwners, Killed;
    if mandates != [] {
      var n := |mandates| - 1;
      assert mandates[n] in mandates;
      KillingAllOwner(s, mandates[..n], a, block, owner, capacity);
      KillingOwner(KilledAll(s, mandates[..n], a, block, capacity), mandates[n], Some(a), block, owner, capacity);
    }
  }

  lemma MirrorOwners(s: Store, h: Store, owner: map<string, string>)
    requires LinkedToOwners(s, owner) && Mirrors(s, h)
    ensures LinkedToOwners(h, owner)
  {
    assert forall a :: MandatesFor(h, a) == MandatesFor(s, a);
  }

  lemma StepOwners(r: Reg, op: Op, owner: map<string, string>, capacity: nat)
    requires LinkedToOwners(r.store, owner) && ReplayMirrors(r, capacity)
    requires op.Assign? ==> op.mandateId in owner && owner[op.mandateId] == op.agentId
    ensures LinkedToOwners(Step(r, op, capacity).store, owner)
  {
    hide Allocated, Killed, KilledAll, KillEvents, KillAllEvents;
    match op
    case Assign(m, a) => AllocatingOwner(r.store, m, Some(a), owner, capacity);
    case RevokeMandate(m, block) => KillingOwner(r.store, m, None, block, owner, capacity);
    case RevokeAgent(a, block) =>
      SameLinksOwners(r.store, Blocked(r.store, a, block), owner);
      KillingAllOwner(Blocked(r.store, a, block), MandatesFor(r.store, a), a, block, owner, capacity);
    case Unsuspend(m) => SameLinksOwners(r.store, Cleared(r.store, m), owner);
    case Unblock(a) => SameLinksOwners(r.store, Unblocked(r.store, a), owner);
    case FinishPublish(_) =>
    case Restart => MirrorOwners(r.store, Replay(r.events, capacity).store, owner);
  }

  lemma {:induction false} RunOwners(ops: seq<Op>, owner: map<string, string>, capacity: nat)
    requires OneAgentEach(ops, owner)
    ensures LinkedToOwners(Run(ops, capacity).store, owner)
  {
    hide Step;
    if ops != [] {
      RunOwners(ops[..|ops| - 1], owner, capacity);
      RunIsSound(ops[..|ops| - 1], capacity);
      StepOwners(Run(ops[..|ops| - 1], capacity), ops[|ops| - 1], owner, capacity);
    }
  }

  /** With one agent per mandate, replaying the ledger of any run, including kills on a full
      list and of mandates nobody registered, rebuilds the store and the version floor. */
  lemma OneAgentRunsRebuild(ops: seq<Op>, owner: map<string, string>, capacity: nat)
    requires OneAgentEach(ops, owner)
    ensures Replay(Run(ops, capacity).events, capacity) == Hydrated(Run(ops, capacity).store, Run(ops, capacity).floor)
  {
    hide Run, OwnBits, RecordsIndexed;
    forall i | 0 <= i < |ops|
      ensures MovesNobody(Run(ops[..i], capacity).store, ops[i])
    {
      RunOwners(ops[..i], owner, capacity);
      RunIsSound(ops[..i], capacity);
    }
    HydrationRebuilds(ops, capacity);
  }

  /** So a restart anywhere in such a run changes nothing. */
  lemma RestartIsInvisible(ops: seq<Op>, owner: map<string, string>, capacity: nat)
    requires OneAgentEach(ops, owner)
    ensures Run(ops + [Restart], capacity) == Run(ops, capacity)
  {
    hide Replay;
    OneAgentRunsRebuild(ops, owner, capacity);
    assert (ops + [Restart])[..|ops|] == ops;
  }

  /** Moving a mandate to a second agent and then killing the first breaks the replay. */
  lemma RelinkingDiverges()
    ensures var ops := [Assign("m", "a"), Assign("m", "b"), RevokeAgent("a", Block(None, None, Revocation))];
      Replay(Run(ops, 8).events, 8) != Hydrated(Run(ops, 8).store, Run(ops, 8).floor)
  {
    hide Step, OwnBits, RecordsIndexed, Replay;
    var kill := RevokeAgent("a", Block(None, None, Revocation));
    var linked := [Assign("m", "a"), Assign("m", "b")];
    var ops := linked + [kill];
    assert ops == [Assign("m", "a"), Assign("m", "b"), kill] && ops[..2] == linked;
    RelinkedStore(linked);
    HydrationRebuilds(linked, 8);
    RunIsSound(linked, 8);
    StepSync(Run(linked, 8), kill, 8);
    assert Run(ops, 8) == Step(Run(linked, 8), kill, 8);
    assert "m" in MandatesFor(Run(linked, 8).store, "a");
    assert !MovesNobody(Run(linked, 8).store, kill);
  }

  lemma RelinkedStore(linked: seq<Op>)
    requires linked == [Assign("m", "a"), Assign("m", "b")]
    ensures var s := Run(linked, 8).store; "m" in MandatesFor(s, "a") && AgentOf(s, "m") == Some("b") && s.records == map[]
    ensures NeverMoves(linked, 8)
  {
    assert linked[..1] == [Assign("m", "a")] && linked[..1][..0] == [];
    assert Run(linked[..1][..0], 8) == NEW_REGISTRY;
    assert Run(linked[..1], 8) == Step(NEW_REGISTRY, Assign("m", "a"), 8);
    assert "m" in MandatesFor(Run(linked[..1], 8).store, "a");
  }
}

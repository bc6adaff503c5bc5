/** The in-memory revocation store: index allocation, agent links, kill records and blocks. */
module RevocationStore {
  import opened Prelude

  datatype Purpose = Revocation | Suspension

  /** A kill; `index` is absent when the list was full. Timestamps are not modelled. */
  datatype Record = Record(mandateId: string, index: Option<nat>, purpose: Purpose, reason: Option<string>,
                           issuedBy: Option<string>, agentId: Option<string>)

  datatype Block = Block(reason: Option<string>, issuedBy: Option<string>, purpose: Purpose)

  /** `byAgent` keeps each agent's mandates in the order they were linked. */
  datatype Store = Store(indices: map<string, nat>, records: map<string, Record>, agents: map<string, string>,
                         byAgent: map<string, seq<string>>, blocked: map<string, Block>, next: nat)

  const NO_RECORDS := Store(map[], map[], map[], map[], map[], 0)

  function MandatesFor(s: Store, agentId: string): seq<string> {
    if agentId in s.byAgent then s.byAgent[agentId] else []
  }

  function IndexOf(s: Store, mandateId: string): Option<nat> {
    if mandateId in s.indices then Some(s.indices[mandateId]) else None
  }

  function AgentOf(s: Store, mandateId: string): Option<string> {
    if mandateId in s.agents then Some(s.agents[mandateId]) else None
  }

  /** Linking again to another agent leaves the mandate in the old agent's list. */
  function Linked(s: Store, mandateId: string, agentId: string): Store {
    var mandates := MandatesFor(s, agentId);
    s.(agents := s.agents[mandateId := agentId],
       byAgent := s.byAgent[agentId := if mandateId in mandates then mandates else mandates + [mandateId]])
  }

  function LinkedIf(s: Store, mandateId: string, agentId: Option<string>): Store {
    if agentId.Some? then Linked(s, mandateId, agentId.value) else s
  }

  /** A new mandate takes the next index and is linked; a full list does neither. */
  function Allocated(s: Store, mandateId: string, agentId: Option<string>, capacity: nat): Store {
    if mandateId in s.indices then LinkedIf(s, mandateId, agentId)
    else if s.next >= capacity then s
    else LinkedIf(WithNewIndex(s, mandateId), mandateId, agentId)
  }

  function Revoked(s: Store, record: Record): Store {
    s.(records := s.records[record.mandateId := record])
  }

  function Cleared(s: Store, mandateId: string): Store {
    s.(records := s.records - {mandateId})
  }

  /** A permanent block is never downgraded. */
  function Blocked(s: Store, agentId: string, block: Block): Store {
    if agentId in s.blocked && s.blocked[agentId].purpose.Revocation? then s
    else s.(blocked := s.blocked[agentId := block])
  }

  function Unblocked(s: Store, agentId: string): Store {
    s.(blocked := s.blocked - {agentId})
  }

  // ---------- What every store keeps ----------

  /** No two mandates share a bit, and the bits run from zero to `next`. */
  ghost predicate OwnBits(s: Store, capacity: nat) {
    && s.next <= capacity
    && (forall m :: m in s.indices ==> s.indices[m] < s.next)
    && (forall m, n :: m in s.indices && n in s.indices && s.indices[m] == s.indices[n] ==> m == n)
  }

  /** A kill carries its mandate's bit; without one, the list is full for good. */
  ghost predicate RecordsIndexed(s: Store, capacity: nat) {
    forall m :: m in s.records ==> RecordIndexed(s, capacity, m)
  }

  predicate RecordIndexed(s: Store, capacity: nat, m: string)
    requires m in s.records
  {
    && s.records[m].mandateId == m
    && s.records[m].index == IndexOf(s, m)
    && (s.records[m].index.None? ==> s.next >= capacity)
  }

  /** Every linked mandate has a bit, and is listed under the agent it is linked to. */
  ghost predicate LinksKnown(s: Store) {
    && (forall m, a :: m in MandatesFor(s, a) ==> m in s.indices && m in s.agents)
    && (forall m :: m in s.agents ==> m in s.indices && m in MandatesFor(s, s.agents[m]))
  }

  ghost predicate Sound(s: Store, capacity: nat) {
    OwnBits(s, capacity) && RecordsIndexed(s, capacity) && LinksKnown(s)
  }

  lemma LinkKeeps(s: Store, mandateId: string, agentId: Option<string>, capacity: nat)
    requires Sound(s, capacity) && mandateId in s.indices
    ensures Sound(LinkedIf(s, mandateId, agentId), capacity)
  {
    var s' := LinkedIf(s, mandateId, agentId);
    if agentId.Some? {
      LinkedLists(s, mandateId, agentId.value);
    }
    assert forall m :: m in s.records ==> RecordIndexed(s, capacity, m) && RecordIndexed(s', capacity, m);
  }

  lemma LinkedLists(s: Store, mandateId: string, agentId: string)
    ensures forall m, a ::
      m in MandatesFor(Linked(s, mandateId, agentId), a) <==> m in MandatesFor(s, a) || (m == mandateId && a == agentId)
  {
  }

  function WithNewIndex(s: Store, mandateId: string): Store {
    s.(indices := s.indices[mandateId := s.next], next := s.next + 1)
  }

  lemma NewIndexKeeps(s: Store, mandateId: string, capacity: nat)
    requires Sound(s, capacity) && mandateId !in s.indices && s.next < capacity
    ensures Sound(WithNewIndex(s, mandateId), capacity)
  {
    var s' := WithNewIndex(s, mandateId);
    forall m, a | m in MandatesFor(s', a)
      ensures m in s'.indices && m in s'.agents
    {
      assert m in MandatesFor(s, a);
    }
    forall m | m in s'.records
      ensures RecordIndexed(s', capacity, m)
    {
      assert RecordIndexed(s, capacity, m);
    }
  }

  lemma AllocateKeeps(s: Store, mandateId: string, agentId: Option<string>, capacity: nat)
    requires Sound(s, capacity)
    ensures Sound(Allocated(s, mandateId, agentId, capacity), capacity)
  {
    hide Sound, LinkedIf;
    if mandateId in s.indices {
      LinkKeeps(s, mandateId, agentId, capacity);
    } else if s.next < capacity {
      NewIndexKeeps(s, mandateId, capacity);
      LinkKeeps(WithNewIndex(s, mandateId), mandateId, agentId, capacity);
    }
  }

  lemma RevokeKeeps(s: Store, record: Record, capacity: nat)
    requires Sound(s, capacity) && record.index == IndexOf(s, record.mandateId)
    requires record.index.None? ==> s.next >= capacity
    ensures Sound(Revoked(s, record), capacity)
  {
    var s' := Revoked(s, record);
    SameLinks(s, s');
    forall m | m in s'.records
      ensures RecordIndexed(s', capacity, m)
    {
      if m != record.mandateId {
        assert RecordIndexed(s, capacity, m);
      }
    }
  }

  lemma SameLinks(s: Store, s': Store)
    requires LinksKnown(s) && s'.indices == s.indices && s'.agents == s.agents && s'.byAgent == s.byAgent
    ensures LinksKnown(s')
  {
    assert forall a :: MandatesFor(s', a) == MandatesFor(s, a);
  }

  /** Lifting a kill, blocking and unblocking touch neither bits nor links. */
  lemma OthersKeep(s: Store, s': Store, capacity: nat)
    requires Sound(s, capacity)
    requires s'.indices == s.indices && s'.agents == s.agents && s'.byAgent == s.byAgent && s'.next == s.next
    requires forall m :: m in s'.records ==> m in s.records && s'.records[m] == s.records[m]
    ensures Sound(s', capacity)
  {
    SameLinks(s, s');
    forall m | m in s'.records
      ensures RecordIndexed(s', capacity, m)
    {
      assert RecordIndexed(s, capacity, m);
    }
  }

  lemma EmptyIsSound(capacity: nat)
    ensures Sound(NO_RECORDS, capacity)
  {
  }

  // ---------- The store itself ----------

  class MemoryRevocationStore {
    var indices: map<string, nat>
    var records: map<string, Record>
    var agents: map<string, string>
    var byAgent: map<string, seq<string>>
    var blocked: map<string, Block>
    var next: nat

    function Contents(): Store
      reads this
    {
      Store(indices, records, agents, byAgent, blocked, next)
    }

    constructor ()
      ensures Contents() == NO_RECORDS
    {
      indices, records, agents, byAgent, blocked, next := map[], map[], map[], map[], map[], 0;
    }

    method Allocate(mandateId: string, agentId: Option<string>, capacity: nat) returns (index: Option<nat>)
      modifies this
      ensures Contents() == Allocated(old(Contents()), mandateId, agentId, capacity)
      ensures index == IndexOf(Contents(), mandateId)
    {
      if mandateId in indices {
        index := Some(indices[mandateId]);
        if agentId.Some? {
          LinkSync(mandateId, agentId.value);
        }
        return;
      }
      if next >= capacity {
        return None;
      }
      index := Some(next);
      next := next + 1;
      indices := indices[mandateId := index.value];
      if agentId.Some? {
        LinkSync(mandateId, agentId.value);
      }
    }

    method LinkSync(mandateId: string, agentId: string)
      modifies this`agents, this`byAgent
      ensures Contents() == Linked(old(Contents()), mandateId, agentId)
    {
      agents := agents[mandateId := agentId];
      if agentId in byAgent {
        if mandateId !in byAgent[agentId] {
          byAgent := byAgent[agentId := byAgent[agentId] + [mandateId]];
        } else {
          assert byAgent == byAgent[agentId := byAgent[agentId]];
        }
      } else {
        assert [] + [mandateId] == [mandateId];
        byAgent := byAgent[agentId := [mandateId]];
      }
    }

    method Revoke(record: Record)
      modifies this`records
      ensures Contents() == Revoked(old(Contents()), record)
    {
      records := records[record.mandateId := record];
    }

    method Clear(mandateId: string)
      modifies this`records
      ensures Contents() == Cleared(old(Contents()), mandateId)
    {
      records := records - {mandateId};
    }

    method BlockAgent(agentId: string, block: Block)
      modifies this`blocked
      ensures Contents() == Blocked(old(Contents()), agentId, block)
    {
      if agentId in blocked && blocked[agentId].purpose.Revocation? {
        return;
      }
      blocked := blocked[agentId := block];
    }

    method UnblockAgent(agentId: string)
      modifies this`blocked
      ensures Contents() == Unblocked(old(Contents()), agentId)
    {
      blocked := blocked - {agentId};
    }
  }
}

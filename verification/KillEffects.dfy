/** What each operation of the registry does, said of the store it leaves: a kill kills, for the
  purpose that was asked, and only what is liftable is lifted.
 */
module KillEffects {
  import opened Prelude
  import opened RevocationStore
  import opened Registry

  predicate IsPermanent(s: Store, m: string) {
    m in s.records && s.records[m].purpose == Revocation
  }

  predicate BlockedForGood(s: Store, a: string) {
    a in s.blocked && s.blocked[a].purpose == Revocation
  }

  /** The record of m says what was asked: the mandate, its bit, purpose, reason, issuer, agent. */
  predicate AsAsked(s: Store, m: string, asked: Block, agentId: Option<string>) {
    && m in s.records
    && s.records[m].mandateId == m
    && s.records[m].purpose == asked.purpose
    && s.records[m].reason == asked.reason
    && s.records[m].issuedBy == asked.issuedBy
    && s.records[m].agentId == agentId
    && s.records[m].index == (if m in s.indices then Some(s.indices[m]) else None)
  }

  /** Whatever m's record was, it is now as asked, or as permanent as before. */
  predicate Hit(s: Store, s': Store, m: string, asked: Block, agentId: Option<string>) {
    if IsPermanent(s, m) then m in s'.records && s'.records[m] == s.records[m] else AsAsked(s', m, asked, agentId)
  }

  predicate SameRecord(s: Store, s': Store, m: string) {
    (m in s'.records <==> m in s.records) && (m in s.records ==> s'.records[m] == s.records[m])
  }

  /** Bits once given stay, and a mandate still without one found the list full. */
  predicate BitsKept(s: Store, s': Store) {
    forall m :: m in s.indices ==> m in s'.indices && s'.indices[m] == s.indices[m]
  }

  // ---------- One mandate ----------

  /** After a kill the mandate has a record, exactly as asked unless it was permanent before; a
      bit too, unless the list is full; and nothing else is touched. */
  lemma RevokeMandateKills(r: Reg, m: string, asked: Block, capacity: nat)
    requires Sound(r.store, capacity)
    ensures var s, s' := r.store, Step(r, RevokeMandate(m, asked), capacity).store;
      && Hit(s, s', m, asked, if m in s.agents then Some(s.agents[m]) else None)
      && (m in s'.indices || s'.next >= capacity || IsPermanent(s, m))
      && (forall n :: n != m ==> SameRecord(s, s', n))
      && s'.blocked == s.blocked && s'.agents == s.agents && s'.byAgent == s.byAgent && BitsKept(s, s')
  {
    hide LinkedIf, LinksKnown, RecordsIndexed;
    UnlinkedWhenUnindexed(r.store, m, capacity);
  }

  /** A mandate without a bit is linked to nobody, so giving it one links nothing. */
  lemma UnlinkedWhenUnindexed(s: Store, m: string, capacity: nat)
    requires Sound(s, capacity)
    ensures m !in s.indices ==> m !in s.agents && LinkedIf(WithNewIndex(s, m), m, None) == WithNewIndex(s, m)
  {
  }

  // ---------- A whole agent ----------

  ghost predicate AllHit(s: Store, s': Store, mandates: seq<string>, asked: Block, agentId: string) {
    && (forall m :: m in mandates ==> Hit(s, s', m, asked, Some(agentId)))
    && (forall m :: m !in mandates ==> SameRecord(s, s', m))
  }

  lemma KillsOne(s: Store, m: string, asked: Block, agentId: string, capacity: nat)
    requires m in s.indices
    ensures var s' := Killed(s, m, Some(agentId), asked, capacity);
      Hit(s, s', m, asked, Some(agentId)) && s' == s.(records := s'.records) && forall n :: n != m ==> SameRecord(s, s', n)
  {
  }

  lemma {:induction false} KillsAll(s: Store, mandates: seq<string>, asked: Block, agentId: string, capacity: nat)
    requires forall m :: m in mandates ==> m in s.indices
    ensures var s' := KilledAll(s, mandates, agentId, asked, capacity);
      AllHit(s, s', mandates, asked, agentId) && s' == s.(records := s'.records)
  {
    if mandates != [] {
      hide Killed;
      var n := |mandates| - 1;
      var before, last := mandates[..n], mandates[n];
      assert mandates == before + [last] && last in mandates;
      var k := KilledAll(s, before, agentId, asked, capacity);
      KillsAll(s, before, asked, agentId, capacity);
      KillsOne(k, last, asked, agentId, capacity);
      HitTwice(s, k, KilledAll(s, mandates, agentId, asked, capacity), before, last, asked, agentId);
    }
  }

  lemma HitTwice(s: Store, k: Store, s': Store, before: seq<string>, last: string, asked: Block, agentId: string)
    requires AllHit(s, k, before, asked, agentId) && Hit(k, s', last, asked, Some(agentId))
    requires k == s.(records := k.records) && s' == k.(records := s'.records)
    requires forall n :: n != last ==> SameRecord(k, s', n)
    ensures AllHit(s, s', before + [last], asked, agentId)
  {
    forall m | m in before + [last]
      ensures Hit(s, s', m, asked, Some(agentId))
    {
      if m != last {
        assert m in before && Hit(s, k, m, asked, Some(agentId)) && SameRecord(k, s', m);
      } else if last in before {
        assert Hit(s, k, last, asked, Some(agentId));
      } else {
        assert SameRecord(s, k, last);
      }
    }
    forall m | m !in before + [last]
      ensures SameRecord(s, s', m)
    {
      assert m !in before && m != last && SameRecord(s, k, m) && SameRecord(k, s', m);
    }
  }

  /** After an agent-wide kill the agent is blocked as asked, or for good as before, every mandate
      it lists has a record as asked, or permanent as before, and nothing else is touched. */
  lemma RevokeAgentKills(r: Reg, a: string, asked: Block, capacity: nat)
    requires Sound(r.store, capacity)
    ensures var s, s' := r.store, Step(r, RevokeAgent(a, asked), capacity).store;
      && a in s'.blocked && s'.blocked[a] == (if BlockedForGood(s, a) then s.blocked[a] else asked)
      && s'.blocked - {a} == s.blocked - {a}
      && AllHit(s, s', MandatesFor(s, a), asked, a)
      && s'.indices == s.indices && s'.agents == s.agents && s'.byAgent == s.byAgent
  {
    hide KilledAll, KillAllEvents, OwnBits, RecordsIndexed;
    var blocked := Blocked(r.store, a, asked);
    KillsAll(blocked, MandatesFor(r.store, a), asked, a, capacity);
  }

  // ---------- Lifting ----------

  /** A suspension is lifted and nothing else; a permanent kill is not. */
  lemma UnsuspendLifts(r: Reg, m: string, capacity: nat)
    ensures var s, s' := r.store, Step(r, Unsuspend(m), capacity).store;
      && (m in s'.records <==> IsPermanent(s, m))
      && SameRecord(s, s', m) == (m !in s.records || IsPermanent(s, m))
      && (forall n :: n != m ==> SameRecord(s, s', n))
      && s' == s.(records := s'.records)
  {
  }

  lemma UnblockLifts(r: Reg, a: string, capacity: nat)
    ensures var s, s' := r.store, Step(r, Unblock(a), capacity).store;
      && (a in s'.blocked <==> BlockedForGood(s, a))
      && s'.blocked - {a} == s.blocked - {a} && (BlockedForGood(s, a) ==> s' == s)
      && s' == s.(blocked := s'.blocked)
  {
  }

  // ---------- Assigning ----------

  predicate LinkedTo(s: Store, m: string, a: string) {
    m in MandatesFor(s, a) && m in s.agents && s.agents[m] == a
  }

  lemma LinkingLinks(s: Store, m: string, a: string)
    ensures var s' := LinkedIf(s, m, Some(a));
      LinkedTo(s', m, a) && s'.indices == s.indices && s'.records == s.records && s'.blocked == s.blocked && s'.next == s.next
  {
  }

  /** A mandate gets a bit of its own and is linked, or the list is full and nothing changes. */
  lemma AssignGivesABit(r: Reg, m: string, a: string, capacity: nat)
    requires Sound(r.store, capacity)
    ensures var s, s' := r.store, Step(r, Assign(m, a), capacity).store;
      && (m in s'.indices <==> m in s.indices || s.next < capacity)
      && (m in s'.indices ==> LinkedTo(s', m, a))
      && (m !in s'.indices ==> s' == s)
      && BitsKept(s, s') && (m in s'.indices && m !in s.indices ==> forall n :: n in s.indices ==> s.indices[n] != s'.indices[m])
      && s'.records == s.records && s'.blocked == s.blocked
  {
    hide LinksKnown, RecordsIndexed, LinkedIf, LinkedTo;
    LinkingLinks(r.store, m, a);
    LinkingLinks(WithNewIndex(r.store, m), m, a);
  }

  // ---------- Over runs ----------

  /** Once a mandate was killed for good it stays so, whatever is asked afterwards: by itself, or
      with the agent that listed it. */
  lemma KilledForGood(before: seq<Op>, kill: Op, more: seq<Op>, m: string, capacity: nat)
    requires kill.RevokeMandate? || kill.RevokeAgent?
    requires kill.block.purpose == Revocation
    requires if kill.RevokeMandate? then kill.mandateId == m else m in MandatesFor(Run(before, capacity).store, kill.agentId)
    ensures IsPermanent(Run(before + [kill] + more, capacity).store, m)
  {
    hide Run, Step, Sound;
    var r := Run(before, capacity);
    RunIsSound(before, capacity);
    RunOneMore(before, kill, capacity);
    if kill.RevokeMandate? {
      RevokeMandateKills(r, m, kill.block, capacity);
    } else {
      RevokeAgentKills(r, kill.agentId, kill.block, capacity);
      assert Hit(r.store, Run(before + [kill], capacity).store, m, kill.block, Some(kill.agentId));
    }
    PermanentForever(before + [kill], more, capacity);
    assert Permanent(Run(before + [kill], capacity).store, m);
  }

  /** An agent blocked for good stays blocked. */
  lemma AgentBlockedForGood(before: seq<Op>, a: string, asked: Block, more: seq<Op>, capacity: nat)
    requires asked.purpose == Revocation
    ensures BlockedForGood(Run(before + [RevokeAgent(a, asked)] + more, capacity).store, a)
  {
    hide Run, Step, Sound;
    RunIsSound(before, capacity);
    RunOneMore(before, RevokeAgent(a, asked), capacity);
    RevokeAgentKills(Run(before, capacity), a, asked, capacity);
    PermanentForever(before + [RevokeAgent(a, asked)], more, capacity);
  }

  lemma RunOneMore(before: seq<Op>, op: Op, capacity: nat)
    ensures Run(before + [op], capacity) == Step(Run(before, capacity), op, capacity)
  {
    hide Step;
    assert (before + [op])[..|before|] == before;
  }
}

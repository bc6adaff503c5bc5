/** Building the published list while the registry goes on changing: `publish` does not wait
  in the registry's queue, so every await of it may find a later store.
 */
module ListBuilding {
  import opened Prelude
  import opened RevocationStore
  import opened Registry
  import opened Publication
  import Bits = Bitstring

  // ---------- What a later store keeps ----------

  /** Every bit, and every mandate listed under an agent. */
  ghost predicate Grown(s: Store, s': Store) {
    && (forall m :: m in s.indices ==> m in s'.indices && s'.indices[m] == s.indices[m])
    && (forall m, a :: m in MandatesFor(s, a) ==> m in MandatesFor(s', a))
  }

  /** Permanent kills and blocks, bits and listings. */
  ghost predicate Later(s: Store, s': Store) {
    Keeps(s, s') && Grown(s, s')
  }

  lemma GrownTransitive(a: Store, b: Store, c: Store)
    requires Grown(a, b) && Grown(b, c)
    ensures Grown(a, c)
  {
  }

  lemma SameListsGrown(s: Store, s': Store)
    requires s'.indices == s.indices && s'.byAgent == s.byAgent
    ensures Grown(s, s')
  {
    assert forall a :: MandatesFor(s', a) == MandatesFor(s, a);
  }

  lemma LinkGrows(s: Store, mandateId: string, agentId: Option<string>)
    ensures Grown(s, LinkedIf(s, mandateId, agentId))
  {
    if agentId.Some? {
      LinkedLists(s, mandateId, agentId.value);
    }
  }

  lemma AllocateGrows(s: Store, mandateId: string, agentId: Option<string>, capacity: nat)
    requires forall m :: m in s.indices ==> s.indices[m] < s.next
    ensures Grown(s, Allocated(s, mandateId, agentId, capacity))
  {
    hide LinkedIf, MandatesFor;
    LinkGrows(s, mandateId, agentId);
    LinkGrows(WithNewIndex(s, mandateId), mandateId, agentId);
    if mandateId !in s.indices {
      NewIndexGrows(s, mandateId);
      GrownTransitive(s, WithNewIndex(s, mandateId), LinkedIf(WithNewIndex(s, mandateId), mandateId, agentId));
    }
  }

  lemma NewIndexGrows(s: Store, mandateId: string)
    requires mandateId !in s.indices
    ensures Grown(s, WithNewIndex(s, mandateId))
  {
  }

  lemma KillGrows(s: Store, mandateId: string, given: Option<string>, block: Block, capacity: nat)
    requires Sound(s, capacity)
    ensures Grown(s, Killed(s, mandateId, given, block, capacity))
  {
    hide Allocated, LinksKnown, RecordsIndexed, Grown;
    var agentId := AgentFor(s, mandateId, given);
    AllocateGrows(s, mandateId, agentId, capacity);
    SameListsGrown(s, s);
    var indexed := Indexed(s, mandateId, agentId, capacity);
    var revoked := Revoked(indexed, KillRecord(s, mandateId, given, block, capacity));
    SameListsGrown(indexed, revoked);
    GrownTransitive(s, indexed, revoked);
  }

  lemma {:induction false} KillAllGrows(s: Store, mandates: seq<string>, agentId: string, block: Block, capacity: nat)
    requires Sound(s, capacity)
    ensures Grown(s, KilledAll(s, mandates, agentId, block, capacity))
  {
    hide Sound, Killed, Grown;
    if mandates == [] {
      SameListsGrown(s, s);
    } else {
      var n := |mandates| - 1;
      var k := KilledAll(s, mandates[..n], agentId, block, capacity);
      KillAllGrows(s, mandates[..n], agentId, block, capacity);
      KillAllKeeps(s, mandates[..n], agentId, block, capacity);
      KillGrows(k, mandates[n], Some(agentId), block, capacity);
      GrownTransitive(s, k, KilledAll(s, mandates, agentId, block, capacity));
    }
  }

  lemma StepGrows(r: Reg, op: Op, capacity: nat)
    requires Sound(r.store, capacity) && ReplayMirrors(r, capacity)
    ensures Grown(r.store, Step(r, op, capacity).store)
  {
    hide Allocated, Killed, KilledAll, KillEvents, KillAllEvents, Grown, LinksKnown, RecordsIndexed, MandatesFor;
    var s := r.store;
    SameListsGrown(s, s);
    match op
    case Assign(m, a) => AllocateGrows(s, m, Some(a), capacity);
    case RevokeMandate(m, block) => KillGrows(s, m, None, block, capacity);
    case RevokeAgent(a, block) => AgentKillGrows(s, a, block, capacity);
    case Unsuspend(m) => SameListsGrown(s, Cleared(s, m));
    case Unblock(a) => SameListsGrown(s, Unblocked(s, a));
    case FinishPublish(_) =>
    case Restart => SameListsGrown(s, Replay(r.events, capacity).store);
  }

  lemma AgentKillGrows(s: Store, a: string, block: Block, capacity: nat)
    requires Sound(s, capacity)
    ensures Grown(s, KilledAll(Blocked(s, a, block), MandatesFor(s, a), a, block, capacity))
  {
    hide KilledAll, Grown, Sound, MandatesFor;
    var blocked := Blocked(s, a, block);
    OthersKeep(s, blocked, capacity);
    SameListsGrown(s, blocked);
    KillAllGrows(blocked, MandatesFor(s, a), a, block, capacity);
    GrownTransitive(s, blocked, KilledAll(blocked, MandatesFor(s, a), a, block, capacity));
  }

  /** Over any run, relinks and restarts included, a later store keeps all of that. */
  lemma {:induction false} RunIsLater(ops: seq<Op>, more: seq<Op>, capacity: nat)
    ensures Later(Run(ops, capacity).store, Run(ops + more, capacity).store)
  {
    PermanentForever(ops, more, capacity);
    hide Step, Keeps, Grown;
    if more == [] {
      assert ops + more == ops;
      SameListsGrown(Run(ops, capacity).store, Run(ops, capacity).store);
    } else {
      var n := |more| - 1;
      assert (ops + more)[..|ops + more| - 1] == ops + more[..n];
      RunIsLater(ops, more[..n], capacity);
      RunIsSound(ops + more[..n], capacity);
      StepGrows(Run(ops + more[..n], capacity), more[n], capacity);
      GrownTransitive(Run(ops, capacity).store, Run(ops + more[..n], capacity).store, Run(ops + more, capacity).store);
    }
  }

  // ---------- The store as each await finds it ----------

  /** Sound at every moment, and every moment's store is later than those before. */
  ghost predicate GoesOn(world: nat -> Store, entries: nat) {
    && (forall n: nat :: Sound(world(n), entries))
    && (forall i: nat, j: nat :: i <= j ==> Later(world(i), world(j)))
  }

  /** The stores of a run, read at some moments of it. */
  function StoreAt(at: nat -> seq<Op>, entries: nat): nat -> Store {
    (n: nat) => Run(at(n), entries).store
  }

  /** The stores of any run, read at any moments of it, go on. */
  lemma RunsGoOn(at: nat -> seq<Op>, entries: nat)
    requires forall i: nat, j: nat :: i <= j ==> at(i) <= at(j)
    ensures GoesOn(StoreAt(at, entries), entries)
  {
    hide Later, Sound, Run;
    forall n: nat
      ensures Sound(StoreAt(at, entries)(n), entries)
    {
      RunIsSound(at(n), entries);
    }
    forall i: nat, j: nat | i <= j
      ensures Later(StoreAt(at, entries)(i), StoreAt(at, entries)(j))
    {
      RunIsLater(at(i), at(j)[|at(i)|..], entries);
      assert at(i) + at(j)[|at(i)|..] == at(j);
    }
  }

  /** Between two moments the store only went on. */
  lemma Moments(world: nat -> Store, entries: nat, i: nat, j: nat)
    requires GoesOn(world, entries) && i <= j
    ensures Later(world(i), world(j)) && Sound(world(i), entries) && Sound(world(j), entries)
  {
    hide Later, Sound;
  }

  // ---------- What a build puts on its list ----------

  /** When the block and the mandates of an agent were read. */
  datatype Read = Read(block: nat, list: nat)

  predicate Recorded(s: Store, purpose: Purpose, ids: set<string>, i: nat) {
    exists m :: m in ids && m in s.records && s.records[m].purpose == purpose && s.records[m].index == Some(i)
  }

  /** The agent was blocked under the purpose when its block was read, and listed the bit's
      mandate when its mandates were. */
  predicate SeenListed(world: nat -> Store, purpose: Purpose, a: string, r: Read, i: nat) {
    && a in world(r.block).blocked && world(r.block).blocked[a].purpose == purpose
    && ListsIndex(world(r.list), MandatesFor(world(r.list), a), i)
  }

  predicate Seen(world: nat -> Store, purpose: Purpose, trace: map<string, Read>, i: nat) {
    exists a :: a in trace && SeenListed(world, purpose, a, trace[a], i)
  }

  /** Exactly these kills of the snapshot, and the mandates of these agents as they were read. */
  predicate Exact(v: seq<bool>, world: nat -> Store, purpose: Purpose, entries: nat, ids: set<string>, trace: map<string, Read>) {
    && |v| == entries
    && forall i :: 0 <= i < entries ==> (v[i] <==> Recorded(world(0), purpose, ids, i) || Seen(world, purpose, trace, i))
  }

  predicate ReadBy(trace: map<string, Read>, now: nat) {
    forall a :: a in trace ==> trace[a].block <= trace[a].list <= now
  }

  /** A finished build: the kills of the first moment, and each agent blocked then, read in order. */
  predicate Built(v: seq<bool>, world: nat -> Store, purpose: Purpose, entries: nat, trace: map<string, Read>, now: nat) {
    && Exact(v, world, purpose, entries, world(0).records.Keys, trace)
    && trace.Keys == world(0).blocked.Keys
    && ReadBy(trace, now)
  }

  // ---------- The build ----------

  /** Builds the list of one purpose: one snapshot of the kills and the blocked agents, then
      an await for each agent's block, its mandates, and each mandate's index, whatever the
      registry does meanwhile. */
  method BuildList(world: nat -> Store, purpose: Purpose, entries: nat)
    returns (bits: Bits.Bitstring, now: nat, ghost trace: map<string, Read>)
    requires GoesOn(world, entries)
    requires entries > 0 && entries % 8 == 0 && entries <= Bits.TWO_32
    ensures fresh(bits) && fresh(bits.bytes)
    ensures Built(bits.Value(), world, purpose, entries, trace, now)
  {
    hide *;
    var snapshot := world(0);
    now := 0;
    Moments(world, entries, 0, 0);
    bits := new Bits.Bitstring(entries);
    ListRecords(world, purpose, entries, bits);
    var agents := snapshot.blocked.Keys;
    trace := map[];
    NothingRead(now);
    while agents != {}
      invariant trace.Keys == snapshot.blocked.Keys - agents && agents <= snapshot.blocked.Keys
      invariant fresh(bits.bytes) && ReadBy(trace, now)
      invariant Exact(bits.Value(), world, purpose, entries, snapshot.records.Keys, trace)
      decreases agents
    {
      var a :| a in agents;
      now := now + 1;
      ghost var seen := now;
      if a in world(now).blocked && world(now).blocked[a].purpose == purpose {
        now := now + 1;
        var mandates := MandatesFor(world(now), a);
        var list := now;
        now := ListMandates(world, purpose, entries, bits, a, mandates, list, trace);
        AgentListed(bits.Value(), world, purpose, entries, trace, a, Read(seen, list));
        OneMoreRead(trace, a, Read(seen, list), seen - 1, now);
        trace := trace[a := Read(seen, list)];
      } else {
        AgentSkipped(bits.Value(), world, purpose, entries, trace, a, Read(seen, seen));
        OneMoreRead(trace, a, Read(seen, seen), seen - 1, now);
        trace := trace[a := Read(seen, seen)];
      }
      agents := agents - {a};
    }
    assert trace.Keys == snapshot.blocked.Keys;
    BuiltNow(bits.Value(), world, purpose, entries, trace, now);
  }

  lemma BuiltNow(v: seq<bool>, world: nat -> Store, purpose: Purpose, entries: nat, trace: map<string, Read>, now: nat)
    requires Exact(v, world, purpose, entries, world(0).records.Keys, trace)
    requires trace.Keys == world(0).blocked.Keys && ReadBy(trace, now)
    ensures Built(v, world, purpose, entries, trace, now)
  {
    hide Exact, ReadBy;
  }

  lemma NothingRead(now: nat)
    ensures ReadBy(map[], now)
  {
  }

  lemma OneMoreRead(trace: map<string, Read>, a: string, r: Read, before: nat, now: nat)
    requires ReadBy(trace, before) && before <= now && r.block <= r.list <= now
    ensures ReadBy(trace[a := r], now)
  {
  }

  method ListRecords(world: nat -> Store, purpose: Purpose, entries: nat, bits: Bits.Bitstring)
    requires Sound(world(0), entries) && entries <= Bits.TWO_32 && bits.Value() == seq(entries, i => false)
    modifies bits.bytes
    ensures Exact(bits.Value(), world, purpose, entries, world(0).records.Keys, map[])
  {
    hide *;
    var snapshot := world(0);
    var ids := snapshot.records.Keys;
    ghost var done: set<string> := {};
    EmptyList(bits.Value(), world, purpose, entries);
    while ids != {}
      invariant done == snapshot.records.Keys - ids && ids <= snapshot.records.Keys
      invariant Exact(bits.Value(), world, purpose, entries, done, map[])
      decreases ids
    {
      var m :| m in ids;
      var r := snapshot.records[m];
      NextRecord(bits.Value(), world, purpose, entries, done, m);
      if r.purpose == purpose && r.index.Some? {
        Settable(bits, entries, r.index.value);
        var _ := bits.Set(r.index.value, true);
      }
      done := done + {m};
      ids := ids - {m};
    }
    assert done == snapshot.records.Keys;
  }

  lemma EmptyList(v: seq<bool>, world: nat -> Store, purpose: Purpose, entries: nat)
    requires v == seq(entries, i => false)
    ensures Exact(v, world, purpose, entries, {}, map[])
  {
  }

  /** A bit of a list this long can be set. */
  lemma Settable(bits: Bits.Bitstring, entries: nat, i: nat)
    requires |bits.Value()| == entries && i < entries <= Bits.TWO_32
    ensures 8 * bits.bytes.Length == entries && i <= MAX_SAFE_INTEGER
  {
  }

  lemma NextRecord(v: seq<bool>, world: nat -> Store, purpose: Purpose, entries: nat, ids: set<string>, m: string)
    requires Sound(world(0), entries) && m in world(0).records && Exact(v, world, purpose, entries, ids, map[])
    ensures |v| == entries
    ensures var r := world(0).records[m];
      if r.purpose == purpose && r.index.Some?
      then r.index.value < entries && Exact(v[r.index.value := true], world, purpose, entries, ids + {m}, map[])
      else Exact(v, world, purpose, entries, ids + {m}, map[])
  {
    hide Recorded, Seen, LinksKnown;
    var s := world(0);
    assert RecordIndexed(s, entries, m);
    forall i | 0 <= i < entries
      ensures Recorded(s, purpose, ids + {m}, i)
        <==> Recorded(s, purpose, ids, i) || (s.records[m].purpose == purpose && s.records[m].index == Some(i))
    {
      RecordedOneMore(s, purpose, ids, m, i);
    }
  }

  lemma RecordedOneMore(s: Store, purpose: Purpose, ids: set<string>, m: string, i: nat)
    requires m in s.records
    ensures Recorded(s, purpose, ids + {m}, i)
      <==> Recorded(s, purpose, ids, i) || (s.records[m].purpose == purpose && s.records[m].index == Some(i))
  {
    assert m in ids + {m};
  }

  /** The list with the first mandates of the agent being read on it. */
  predicate Inside(v: seq<bool>, world: nat -> Store, purpose: Purpose, entries: nat, trace: map<string, Read>, s: Store, mandates: seq<string>) {
    && |v| == entries
    && forall i :: 0 <= i < entries ==>
        (v[i] <==> Recorded(world(0), purpose, world(0).records.Keys, i) || Seen(world, purpose, trace, i) || ListsIndex(s, mandates, i))
  }

  /** The mandates of one blocked agent, with an await for each index. */
  method ListMandates(world: nat -> Store, purpose: Purpose, entries: nat, bits: Bits.Bitstring, a: string, mandates: seq<string>,
                      list: nat, ghost trace: map<string, Read>) returns (now: nat)
    requires GoesOn(world, entries) && entries <= Bits.TWO_32 && mandates == MandatesFor(world(list), a)
    requires Exact(bits.Value(), world, purpose, entries, world(0).records.Keys, trace)
    modifies bits.bytes
    ensures now >= list && Inside(bits.Value(), world, purpose, entries, trace, world(list), mandates)
  {
    hide *;
    now := list;
    NoneInside(bits.Value(), world, purpose, entries, trace, world(list), mandates);
    var k := 0;
    while k < |mandates|
      invariant 0 <= k <= |mandates| && list <= now
      invariant Inside(bits.Value(), world, purpose, entries, trace, world(list), mandates[..k])
    {
      now := now + 1;
      Moments(world, entries, list, now);
      ListedKeepsIndex(world(list), world(now), entries, a, mandates[k]);
      var index := IndexOf(world(now), mandates[k]);
      NextMandate(bits.Value(), world, purpose, entries, trace, world(list), mandates, k);
      if index.Some? {
        Settable(bits, entries, index.value);
        var _ := bits.Set(index.value, true);
      }
      k := k + 1;
    }
    assert mandates[..k] == mandates;
  }

  lemma NoneInside(v: seq<bool>, world: nat -> Store, purpose: Purpose, entries: nat, trace: map<string, Read>, s: Store, mandates: seq<string>)
    requires Exact(v, world, purpose, entries, world(0).records.Keys, trace)
    ensures Inside(v, world, purpose, entries, trace, s, mandates[..0])
  {
    hide Recorded, Seen;
  }

  /** A listed mandate has a bit, and keeps it. */
  lemma ListedKeepsIndex(s: Store, s': Store, entries: nat, a: string, m: string)
    requires Sound(s, entries) && Later(s, s') && m in MandatesFor(s, a)
    ensures m in s.indices && IndexOf(s', m) == Some(s.indices[m]) && s.indices[m] < entries
  {
    hide Keeps, RecordsIndexed;
  }

  lemma ListsOneMore(s: Store, mandates: seq<string>, k: nat, i: nat)
    requires k < |mandates|
    ensures ListsIndex(s, mandates[..k + 1], i) <==> ListsIndex(s, mandates[..k], i) || IndexOf(s, mandates[k]) == Some(i)
  {
    var before, after := mandates[..k], mandates[..k + 1];
    if j :| 0 <= j < |before| && IndexOf(s, before[j]) == Some(i) {
      assert after[j] == before[j];
    }
    if IndexOf(s, mandates[k]) == Some(i) {
      assert after[k] == mandates[k];
    }
    if j :| 0 <= j < |after| && IndexOf(s, after[j]) == Some(i) {
      assert j < k ==> before[j] == after[j];
    }
  }

  lemma NextMandate(v: seq<bool>, world: nat -> Store, purpose: Purpose, entries: nat, trace: map<string, Read>, s: Store, mandates: seq<string>, k: nat)
    requires k < |mandates| && mandates[k] in s.indices && s.indices[mandates[k]] < entries
    requires Inside(v, world, purpose, entries, trace, s, mandates[..k])
    ensures |v| == entries && Inside(v[s.indices[mandates[k]] := true], world, purpose, entries, trace, s, mandates[..k + 1])
  {
    hide Recorded, Seen, ListsIndex;
    forall i: nat
      ensures ListsIndex(s, mandates[..k + 1], i) <==> ListsIndex(s, mandates[..k], i) || s.indices[mandates[k]] == i
    {
      ListsOneMore(s, mandates, k, i);
    }
  }

  lemma SeenOneMore(world: nat -> Store, purpose: Purpose, trace: map<string, Read>, a: string, r: Read, i: nat)
    requires a !in trace
    ensures Seen(world, purpose, trace[a := r], i) <==> Seen(world, purpose, trace, i) || SeenListed(world, purpose, a, r, i)
  {
    hide SeenListed;
    var after := trace[a := r];
    if b :| b in trace && SeenListed(world, purpose, b, trace[b], i) {
      assert SeenListed(world, purpose, b, after[b], i);
    }
    if SeenListed(world, purpose, a, r, i) {
      assert SeenListed(world, purpose, a, after[a], i);
    }
  }

  lemma AgentListed(v: seq<bool>, world: nat -> Store, purpose: Purpose, entries: nat, trace: map<string, Read>, a: string, r: Read)
    requires a !in trace && a in world(r.block).blocked && world(r.block).blocked[a].purpose == purpose
    requires Inside(v, world, purpose, entries, trace, world(r.list), MandatesFor(world(r.list), a))
    ensures Exact(v, world, purpose, entries, world(0).records.Keys, trace[a := r])
  {
    hide Recorded, Seen, ListsIndex, MandatesFor;
    forall i | 0 <= i < entries
      ensures Seen(world, purpose, trace[a := r], i) <==> Seen(world, purpose, trace, i) || ListsIndex(world(r.list), MandatesFor(world(r.list), a), i)
    {
      SeenOneMore(world, purpose, trace, a, r, i);
    }
  }

  lemma AgentSkipped(v: seq<bool>, world: nat -> Store, purpose: Purpose, entries: nat, trace: map<string, Read>, a: string, r: Read)
    requires a !in trace && !(a in world(r.block).blocked && world(r.block).blocked[a].purpose == purpose)
    requires Exact(v, world, purpose, entries, world(0).records.Keys, trace)
    ensures Exact(v, world, purpose, entries, world(0).records.Keys, trace[a := r])
  {
    hide Recorded, Seen, ListsIndex, MandatesFor;
    forall i | 0 <= i < entries
      ensures Seen(world, purpose, trace[a := r], i) <==> Seen(world, purpose, trace, i)
    {
      SeenOneMore(world, purpose, trace, a, r, i);
    }
  }

  // ---------- What that means, whatever happens meanwhile ----------

  /** Whatever is killed when the build begins is on the list, lifted meanwhile or not. */
  lemma KilledIsListed(v: seq<bool>, world: nat -> Store, purpose: Purpose, entries: nat, trace: map<string, Read>, now: nat, m: string)
    requires GoesOn(world, entries) && Built(v, world, purpose, entries, trace, now)
    requires m in world(0).indices && KilledUnder(world(0), m, purpose)
    ensures world(0).indices[m] < |v| && v[world(0).indices[m]]
  {
    hide Seen;
    Moments(world, entries, 0, 0);
    assert RecordIndexed(world(0), entries, m);
    assert Recorded(world(0), purpose, world(0).records.Keys, world(0).indices[m]);
  }

  /** So is whatever an agent lists that stays blocked all along. */
  lemma BlockedThroughoutIsListed(v: seq<bool>, world: nat -> Store, purpose: Purpose, entries: nat, trace: map<string, Read>, now: nat, a: string, m: string)
    requires GoesOn(world, entries) && Built(v, world, purpose, entries, trace, now)
    requires forall n: nat :: n <= now ==> a in world(n).blocked && world(n).blocked[a].purpose == purpose
    requires m in MandatesFor(world(0), a)
    ensures m in world(0).indices && world(0).indices[m] < |v| && v[world(0).indices[m]]
  {
    hide Recorded, Keeps;
    Moments(world, entries, 0, trace[a].list);
    ListedKeepsIndex(world(0), world(trace[a].list), entries, a, m);
    ListedIsIndexed(world(trace[a].list), a, m);
    assert SeenListed(world, purpose, a, trace[a], world(0).indices[m]);
  }

  lemma ListedIsIndexed(s: Store, a: string, m: string)
    requires m in MandatesFor(s, a) && m in s.indices
    ensures ListsIndex(s, MandatesFor(s, a), s.indices[m])
  {
    var k :| 0 <= k < |MandatesFor(s, a)| && MandatesFor(s, a)[k] == m;
    assert IndexOf(s, MandatesFor(s, a)[k]) == Some(s.indices[m]);
  }

  /** A set bit has a cause: a kill at the first moment, or an agent blocked at one moment that
      lists the mandate at that or a later one. */
  lemma ListedHasCause(v: seq<bool>, world: nat -> Store, purpose: Purpose, entries: nat, trace: map<string, Read>, now: nat, i: nat)
    requires Built(v, world, purpose, entries, trace, now) && i < |v| && v[i]
    ensures Recorded(world(0), purpose, world(0).records.Keys, i)
      || exists a, r: Read :: r.block <= r.list <= now && SeenListed(world, purpose, a, r, i)
  {
    hide Recorded, SeenListed;
    if !Recorded(world(0), purpose, world(0).records.Keys, i) {
      var a :| a in trace && SeenListed(world, purpose, a, trace[a], i);
      assert trace[a].block <= trace[a].list <= now && SeenListed(world, purpose, a, trace[a], i);
    }
  }

  // ---------- Exactly what is certain to be listed, and what may be ----------

  predicate IsSet(v: seq<bool>, i: nat) {
    i < |v| && v[i]
  }

  predicate BlockedAt(world: nat -> Store, purpose: Purpose, a: string, n: nat) {
    a in world(n).blocked && world(n).blocked[a].purpose == purpose
  }

  /** Killed when the build begins, or listed then by an agent that is blocked at every moment. */
  ghost predicate Certain(world: nat -> Store, purpose: Purpose, i: nat) {
    || Recorded(world(0), purpose, world(0).records.Keys, i)
    || exists a :: a in world(0).blocked && ListsIndex(world(0), MandatesFor(world(0), a), i)
         && forall n: nat :: BlockedAt(world, purpose, a, n)
  }

  /** Killed when the build begins, or listed by an agent at a moment no earlier than one at
      which it was blocked. */
  ghost predicate Possible(world: nat -> Store, purpose: Purpose, i: nat) {
    || Recorded(world(0), purpose, world(0).records.Keys, i)
    || exists a, r: Read :: a in world(0).blocked && r.block <= r.list && SeenListed(world, purpose, a, r, i)
  }

  /** Some way of reading these agents that does not put bit i on the list. */
  lemma {:induction false} BlindTrace(world: nat -> Store, purpose: Purpose, agents: set<string>, i: nat) returns (trace: map<string, Read>, now: nat)
    requires forall a :: a in agents ==> a in world(0).blocked
    requires !Certain(world, purpose, i)
    ensures trace.Keys == agents && ReadBy(trace, now) && !Seen(world, purpose, trace, i)
  {
    if agents == {} {
      trace, now := map[], 0;
    } else {
      hide SeenListed, ListsIndex, Recorded, Seen;
      var a :| a in agents;
      var before, last := BlindTrace(world, purpose, agents - {a}, i);
      var r := BlindRead(world, purpose, a, i);
      trace, now := before[a := r], last + r.list;
      OneMoreRead(before, a, r, last, now);
      SeenOneMore(world, purpose, before, a, r, i);
    }
  }

  lemma BlindRead(world: nat -> Store, purpose: Purpose, a: string, i: nat) returns (r: Read)
    requires a in world(0).blocked && !Certain(world, purpose, i)
    ensures r.block <= r.list && !SeenListed(world, purpose, a, r, i)
  {
    hide ListsIndex, Recorded, MandatesFor;
    if n: nat :| !BlockedAt(world, purpose, a, n) {
      r := Read(n, n);
    } else {
      r := Read(0, 0);
    }
  }

  /** The list some way of reading the agents gives. */
  lemma ListOf(world: nat -> Store, purpose: Purpose, entries: nat, trace: map<string, Read>, now: nat) returns (v: seq<bool>)
    requires trace.Keys == world(0).blocked.Keys && ReadBy(trace, now)
    ensures Built(v, world, purpose, entries, trace, now)
  {
    hide Recorded, Seen;
    v := seq(entries, i requires 0 <= i < entries => Recorded(world(0), purpose, world(0).records.Keys, i) || Seen(world, purpose, trace, i));
  }

  lemma CertainIsListed(v: seq<bool>, world: nat -> Store, purpose: Purpose, entries: nat, trace: map<string, Read>, now: nat, i: nat)
    requires GoesOn(world, entries) && Built(v, world, purpose, entries, trace, now) && i < entries && Certain(world, purpose, i)
    ensures IsSet(v, i)
  {
    hide GoesOn, Sound, Later, Recorded, ListsIndex, MandatesFor;
    if !Recorded(world(0), purpose, world(0).records.Keys, i) {
      var a :| a in world(0).blocked && ListsIndex(world(0), MandatesFor(world(0), a), i) && forall n: nat :: BlockedAt(world, purpose, a, n);
      Moments(world, entries, 0, trace[a].list);
      StillListed(world(0), world(trace[a].list), entries, a, i);
      assert BlockedAt(world, purpose, a, trace[a].block);
      assert SeenListed(world, purpose, a, trace[a], i);
    }
  }

  /** Every build, at whatever moments its awaits fall, lists exactly what is certain. */
  lemma EveryBuildListsIff(world: nat -> Store, purpose: Purpose, entries: nat, i: nat)
    requires GoesOn(world, entries) && i < entries
    ensures (forall v, trace, now :: Built(v, world, purpose, entries, trace, now) ==> IsSet(v, i)) <==> Certain(world, purpose, i)
  {
    hide GoesOn, Certain, Recorded, Seen;
    forall v, trace, now | Built(v, world, purpose, entries, trace, now) && Certain(world, purpose, i)
      ensures IsSet(v, i)
    {
      CertainIsListed(v, world, purpose, entries, trace, now, i);
    }
    if !Certain(world, purpose, i) {
      var trace, now := BlindTrace(world, purpose, world(0).blocked.Keys, i);
      var v := ListOf(world, purpose, entries, trace, now);
      assert Built(v, world, purpose, entries, trace, now);
      UncertainRecord(world, purpose, i);
    }
  }

  lemma UncertainRecord(world: nat -> Store, purpose: Purpose, i: nat)
    requires !Certain(world, purpose, i)
    ensures !Recorded(world(0), purpose, world(0).records.Keys, i)
  {
  }

  /** Some build lists exactly what is possible. */
  lemma SomeBuildListsIff(world: nat -> Store, purpose: Purpose, entries: nat, i: nat)
    requires i < entries
    ensures (exists v, trace, now :: Built(v, world, purpose, entries, trace, now) && IsSet(v, i)) <==> Possible(world, purpose, i)
  {
    hide Recorded, SeenListed;
    if v, trace: map<string, Read>, now: nat :| Built(v, world, purpose, entries, trace, now) && IsSet(v, i) {
      if !Recorded(world(0), purpose, world(0).records.Keys, i) {
        var a :| a in trace && SeenListed(world, purpose, a, trace[a], i);
        assert a in world(0).blocked && trace[a].block <= trace[a].list;
      }
    }
    if Possible(world, purpose, i) {
      var trace: map<string, Read> := map a | a in world(0).blocked :: Read(0, 0);
      var now := 0;
      if a: string, r: Read :| a in world(0).blocked && r.block <= r.list && SeenListed(world, purpose, a, r, i) {
        trace, now := trace[a := r], r.list;
        assert a in trace && SeenListed(world, purpose, a, trace[a], i);
      }
      var v := ListOf(world, purpose, entries, trace, now);
      assert Built(v, world, purpose, entries, trace, now) && IsSet(v, i);
    }
  }

  // ---------- When no block is lifted meanwhile ----------

  /** Agents blocked under this purpose stay so. Kills may be lifted or replaced. */
  ghost predicate BlocksLast(world: nat -> Store, purpose: Purpose) {
    forall i: nat, j: nat :: i <= j ==> BlocksKept(world(i), world(j), purpose)
  }

  predicate BlocksKept(s: Store, s': Store, purpose: Purpose) {
    forall a :: a in s.blocked && s.blocked[a].purpose == purpose ==> a in s'.blocked && s'.blocked[a].purpose == purpose
  }

  /** Permanent ones always do. */
  lemma RevocationsLast(world: nat -> Store, entries: nat)
    requires GoesOn(world, entries)
    ensures BlocksLast(world, Revocation)
  {
    forall i: nat, j: nat | i <= j
      ensures BlocksKept(world(i), world(j), Revocation)
    {
      assert Later(world(i), world(j));
    }
  }

  lemma MarkedByRecord(s: Store, purpose: Purpose, i: nat)
    requires Recorded(s, purpose, s.records.Keys, i)
    ensures Marked(s, purpose, i)
  {
  }

  /** What an agent lists now it goes on listing, at the same bit. */
  lemma StillListed(s: Store, s': Store, entries: nat, a: string, i: nat)
    requires Sound(s, entries) && Later(s, s') && ListsIndex(s, MandatesFor(s, a), i)
    ensures ListsIndex(s', MandatesFor(s', a), i)
  {
    hide Keeps;
    var k :| 0 <= k < |MandatesFor(s, a)| && IndexOf(s, MandatesFor(s, a)[k]) == Some(i);
    var m := MandatesFor(s, a)[k];
    assert m in MandatesFor(s', a);
    ListedIsIndexed(s', a, m);
  }

  /** The list holds whatever is marked when the build begins, and every bit on it was marked
      at some moment of the build. */
  lemma BoundedByMoments(v: seq<bool>, world: nat -> Store, purpose: Purpose, entries: nat, trace: map<string, Read>, now: nat, i: nat)
    requires GoesOn(world, entries) && BlocksLast(world, purpose) && Built(v, world, purpose, entries, trace, now) && i < entries
    ensures |v| == entries
    ensures Marked(world(0), purpose, i) ==> v[i]
    ensures v[i] ==> exists n: nat :: n <= now && Marked(world(n), purpose, i)
  {
    hide GoesOn, Sound, Later, ListsIndex, MandatesFor, BlocksKept;
    if Marked(world(0), purpose, i) && !Recorded(world(0), purpose, world(0).records.Keys, i) {
      var a :| a in world(0).blocked && world(0).blocked[a].purpose == purpose && ListsIndex(world(0), MandatesFor(world(0), a), i);
      Moments(world, entries, 0, trace[a].list);
      StillListed(world(0), world(trace[a].list), entries, a, i);
      StillBlocked(world(0), world(trace[a].block), purpose, a);
      assert SeenListed(world, purpose, a, trace[a], i);
    }
    if v[i] && Recorded(world(0), purpose, world(0).records.Keys, i) {
      MarkedByRecord(world(0), purpose, i);
    } else if v[i] {
      var a :| a in trace && SeenListed(world, purpose, a, trace[a], i);
      StillBlocked(world(trace[a].block), world(trace[a].list), purpose, a);
      assert Marked(world(trace[a].list), purpose, i);
    }
  }

  lemma StillBlocked(s: Store, s': Store, purpose: Purpose, a: string)
    requires BlocksKept(s, s', purpose) && a in s.blocked && s.blocked[a].purpose == purpose
    ensures a in s'.blocked && s'.blocked[a].purpose == purpose
  {
  }

  // ---------- Permanent kills, from list to list ----------

  lemma StillRevoked(s: Store, s': Store, entries: nat, i: nat)
    requires Sound(s, entries) && Later(s, s') && Marked(s, Revocation, i)
    ensures Marked(s', Revocation, i)
  {
    if m :| m in s.records && s.records[m].purpose == Revocation && s.records[m].index == Some(i) {
      assert Permanent(s, m);
    } else {
      var a :| a in s.blocked && s.blocked[a].purpose == Revocation && ListsIndex(s, MandatesFor(s, a), i);
      hide Sound;
      StillListed(s, s', entries, a, i);
    }
  }

  /** A list of permanent kills lies between what was marked when its build began and what is
      marked when it ends, whatever happens meanwhile. */
  lemma RevocationsBetween(v: seq<bool>, world: nat -> Store, entries: nat, trace: map<string, Read>, now: nat, i: nat)
    requires GoesOn(world, entries) && Built(v, world, Revocation, entries, trace, now) && i < entries
    ensures |v| == entries
    ensures Marked(world(0), Revocation, i) ==> v[i]
    ensures v[i] ==> Marked(world(now), Revocation, i)
  {
    hide GoesOn, Sound, Later, Marked, Built;
    RevocationsLast(world, entries);
    BoundedByMoments(v, world, Revocation, entries, trace, now, i);
    if v[i] {
      var n: nat :| n <= now && Marked(world(n), Revocation, i);
      Moments(world, entries, n, now);
      StillRevoked(world(n), world(now), entries, i);
    }
  }

  /** A list of permanent kills is certain to hold exactly what was marked when its own build
      began: what an older version lists may be missing from it just if it was not yet. */
  lemma EveryRevocationListIff(world: nat -> Store, entries: nat, i: nat)
    requires GoesOn(world, entries) && i < entries
    ensures (forall v, trace, now :: Built(v, world, Revocation, entries, trace, now) ==> IsSet(v, i)) <==> Marked(world(0), Revocation, i)
  {
    hide GoesOn, Built;
    EveryBuildListsIff(world, Revocation, entries, i);
    RevocationsLast(world, entries);
    CertainIffMarked(world, i);
  }

  lemma CertainIffMarked(world: nat -> Store, i: nat)
    requires BlocksLast(world, Revocation)
    ensures Certain(world, Revocation, i) <==> Marked(world(0), Revocation, i)
  {
    hide ListsIndex, MandatesFor;
    if Certain(world, Revocation, i) && !Recorded(world(0), Revocation, world(0).records.Keys, i) {
      var a :| a in world(0).blocked && ListsIndex(world(0), MandatesFor(world(0), a), i) && forall n: nat :: BlockedAt(world, Revocation, a, n);
      assert BlockedAt(world, Revocation, a, 0);
    }
    if Marked(world(0), Revocation, i) && !Recorded(world(0), Revocation, world(0).records.Keys, i) {
      var a :| a in world(0).blocked && world(0).blocked[a].purpose == Revocation && ListsIndex(world(0), MandatesFor(world(0), a), i);
      forall n: nat
        ensures BlockedAt(world, Revocation, a, n)
      {
        assert BlocksKept(world(0), world(n), Revocation);
      }
    }
  }

  /** A mandate permanently killed, or linked to an agent permanently blocked, when the build
      began has its bit set; a set bit means its own mandate is by now. */
  lemma ListedIffKilled(v: seq<bool>, world: nat -> Store, entries: nat, trace: map<string, Read>, now: nat, mandateId: string)
    requires GoesOn(world, entries) && Built(v, world, Revocation, entries, trace, now) && mandateId in world(0).indices
    ensures world(0).indices[mandateId] < |v|
    ensures KilledUnder(world(0), mandateId, Revocation) || LinkedToBlocked(world(0), mandateId, Revocation)
      ==> v[world(0).indices[mandateId]]
    ensures v[world(0).indices[mandateId]]
      ==> KilledUnder(world(now), mandateId, Revocation) || LinkedToBlocked(world(now), mandateId, Revocation)
  {
    hide KilledUnder, LinkedToBlocked, Keeps, Marked, Built;
    Moments(world, entries, 0, now);
    hide Sound, GoesOn;
    PublicationIsExact(world(0), Revocation, entries, mandateId);
    PublicationIsExact(world(now), Revocation, entries, mandateId);
    RevocationsBetween(v, world, entries, trace, now, world(0).indices[mandateId]);
  }

  /** With nothing changing meanwhile, the list is exactly what is marked. */
  lemma QuietListIsExact(v: seq<bool>, world: nat -> Store, purpose: Purpose, entries: nat, trace: map<string, Read>, now: nat)
    requires GoesOn(world, entries) && Built(v, world, purpose, entries, trace, now)
    requires forall n: nat :: world(n) == world(0)
    ensures v == PublishedBits(world(0), purpose, entries)
  {
    hide GoesOn, Marked, Built;
    assert BlocksLast(world, purpose);
    assert |v| == entries by {
      BuiltLength(v, world, purpose, entries, trace, now);
    }
    forall i | 0 <= i < entries
      ensures v[i] <==> Marked(world(0), purpose, i)
    {
      BoundedByMoments(v, world, purpose, entries, trace, now, i);
    }
  }

  lemma BuiltLength(v: seq<bool>, world: nat -> Store, purpose: Purpose, entries: nat, trace: map<string, Read>, now: nat)
    requires Built(v, world, purpose, entries, trace, now)
    ensures |v| == entries
  {
  }

  function From(world: nat -> Store, start: nat): nat -> Store {
    (n: nat) => world(start + n)
  }

  lemma GoesOnFrom(world: nat -> Store, start: nat, entries: nat)
    requires GoesOn(world, entries)
    ensures GoesOn(From(world, start), entries)
  {
    hide Later, Sound;
    forall i: nat, j: nat | i <= j
      ensures Later(From(world, start)(i), From(world, start)(j))
    {
      assert Later(world(start + i), world(start + j));
    }
  }

  /** When one build begins after another has ended, its list keeps every permanent kill of the
      other's: a newer version never clears one. */
  lemma NewerKeepsRevocations(world: nat -> Store, entries: nat, older: seq<bool>, trace1: map<string, Read>, now1: nat,
                              start: nat, newer: seq<bool>, trace2: map<string, Read>, now2: nat)
    requires GoesOn(world, entries) && now1 <= start
    requires Built(older, world, Revocation, entries, trace1, now1)
    requires Built(newer, From(world, start), Revocation, entries, trace2, now2)
    ensures |older| == |newer| == entries && forall i :: 0 <= i < entries && older[i] ==> newer[i]
  {
    hide GoesOn, Sound, Later, Marked, Built;
    GoesOnFrom(world, start, entries);
    BuiltLength(older, world, Revocation, entries, trace1, now1);
    BuiltLength(newer, From(world, start), Revocation, entries, trace2, now2);
    forall i | 0 <= i < entries && older[i]
      ensures newer[i]
    {
      RevocationsBetween(older, world, entries, trace1, now1, i);
      Moments(world, entries, now1, start);
      StillRevoked(world(now1), world(start), entries, i);
      RevocationsBetween(newer, From(world, start), entries, trace2, now2, i);
    }
  }
}

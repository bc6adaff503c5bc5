/** Where the bounds of ListBuilding end: three schedules in which a list says what no moment of
  its build would.
 */
module ListLimits {
  import opened Prelude
  import opened RevocationStore
  import opened Registry
  import opened Publication
  import opened ListBuilding

  const EIGHT: nat := 8

  function KillOf(purpose: Purpose): Block {
    Block(None, None, purpose)
  }

  /** Agent "a" blocked under the purpose, with no mandate yet. */
  function AgentBlocked(purpose: Purpose): seq<Op> {
    [RevokeAgent("a", KillOf(purpose))]
  }

  function BlockedStore(purpose: Purpose): Store {
    NO_RECORDS.(blocked := map["a" := KillOf(purpose)])
  }

  /** Mandate "m" linked to agent "a", which is blocked or not. */
  function LinkedStore(blocked: map<string, Block>): Store {
    Store(map["m" := 0], map[], map["m" := "a"], map["a" := ["m"]], blocked, 1)
  }

  lemma RunOfSnoc(ops: seq<Op>, op: Op)
    ensures Run(ops + [op], EIGHT) == Step(Run(ops, EIGHT), op, EIGHT)
  {
    hide Step;
    assert (ops + [op])[..|ops|] == ops;
  }

  lemma BlockedFirst(purpose: Purpose)
    ensures Run(AgentBlocked(purpose), EIGHT).store == BlockedStore(purpose)
  {
    RunOfSnoc([], AgentBlocked(purpose)[0]);
    assert [] + [AgentBlocked(purpose)[0]] == AgentBlocked(purpose);
    assert Run([], EIGHT) == NEW_REGISTRY;
  }

  lemma LinkAfter(r: Reg, blocked: map<string, Block>)
    requires r.store == NO_RECORDS.(blocked := blocked)
    ensures Step(r, Assign("m", "a"), EIGHT).store == LinkedStore(blocked)
  {
    assert [] + ["m"] == ["m"];
  }

  lemma LinkedAfterBlock(purpose: Purpose)
    ensures Run(AgentBlocked(purpose) + [Assign("m", "a")], EIGHT).store == LinkedStore(map["a" := KillOf(purpose)])
  {
    hide Run;
    BlockedFirst(purpose);
    RunOfSnoc(AgentBlocked(purpose), Assign("m", "a"));
    LinkAfter(Run(AgentBlocked(purpose), EIGHT), map["a" := KillOf(purpose)]);
  }

  lemma LinkedStoreLists(blocked: map<string, Block>, i: nat)
    ensures MandatesFor(LinkedStore(blocked), "a") == ["m"]
    ensures ListsIndex(LinkedStore(blocked), ["m"], i) <==> i == 0
  {
    var s := LinkedStore(blocked);
    assert ["m"][0] == "m" && IndexOf(s, "m") == Some(0);
  }

  function Bits(first: bool): seq<bool> {
    seq(EIGHT, i => i == 0 && first)
  }

  /** One agent read: what is on the list. */
  lemma OneAgentBuilt(world: nat -> Store, purpose: Purpose, r: Read, now: nat, first: bool)
    requires r.block <= r.list <= now && world(0).records == map[] && world(0).blocked.Keys == {"a"}
    requires forall i: nat :: SeenListed(world, purpose, "a", r, i) <==> first && i == 0
    ensures Built(Bits(first), world, purpose, EIGHT, map["a" := r], now)
  {
    hide SeenListed;
    forall i | 0 <= i < EIGHT
      ensures Seen(world, purpose, map["a" := r], i) <==> first && i == 0
    {
      assert "a" in map["a" := r];
    }
  }

  // ---------- Two versions that overlap ----------

  /** The older build finds mandate "m" linked when it reads the agent's mandates. */
  function OlderMoments(n: nat): seq<Op> {
    if n <= 1 then AgentBlocked(Revocation) else AgentBlocked(Revocation) + [Assign("m", "a")]
  }

  /** The newer one has read them before. */
  function NewerMoments(n: nat): seq<Op> {
    AgentBlocked(Revocation)
  }

  /** Two builds of permanent kills that begin at one moment and overlap: the older version
      carries a kill that the newer one does not. */
  lemma OverlappingListsDisagree() returns (older: seq<bool>, newer: seq<bool>)
    ensures var oldWorld, newWorld := StoreAt(OlderMoments, EIGHT), StoreAt(NewerMoments, EIGHT);
      && GoesOn(oldWorld, EIGHT) && GoesOn(newWorld, EIGHT) && oldWorld(0) == newWorld(0)
      && Built(older, oldWorld, Revocation, EIGHT, map["a" := Read(1, 2)], 3)
      && Built(newer, newWorld, Revocation, EIGHT, map["a" := Read(1, 2)], 2)
      && older[0] && !newer[0]
  {
    hide Run, GoesOn, SeenListed, ListsIndex, Built;
    var oldWorld, newWorld := StoreAt(OlderMoments, EIGHT), StoreAt(NewerMoments, EIGHT);
    RunsGoOn(OlderMoments, EIGHT);
    RunsGoOn(NewerMoments, EIGHT);
    BlockedFirst(Revocation);
    LinkedAfterBlock(Revocation);
    older, newer := Bits(true), Bits(false);
    forall i: nat
      ensures SeenListed(oldWorld, Revocation, "a", Read(1, 2), i) <==> i == 0
      ensures !SeenListed(newWorld, Revocation, "a", Read(1, 2), i)
    {
      SeenInLinked(oldWorld, Revocation, Read(1, 2), map["a" := KillOf(Revocation)], i);
      SeenInBlocked(newWorld, Revocation, Read(1, 2), i);
    }
    OneAgentBuilt(oldWorld, Revocation, Read(1, 2), 3, true);
    OneAgentBuilt(newWorld, Revocation, Read(1, 2), 2, false);
  }

  lemma SeenInLinked(world: nat -> Store, purpose: Purpose, r: Read, blocked: map<string, Block>, i: nat)
    requires "a" in world(r.block).blocked && world(r.block).blocked["a"].purpose == purpose
    requires world(r.list) == LinkedStore(blocked)
    ensures SeenListed(world, purpose, "a", r, i) <==> i == 0
  {
    LinkedStoreLists(blocked, i);
  }

  lemma SeenInBlocked(world: nat -> Store, purpose: Purpose, r: Read, i: nat)
    requires world(r.list).byAgent == map[]
    ensures !SeenListed(world, purpose, "a", r, i)
  {
  }

  // ---------- A suspension lifted during the build ----------

  function LiftedMoments(n: nat): seq<Op> {
    if n <= 1 then AgentBlocked(Suspension) else AgentBlocked(Suspension) + [Unblock("a")] + [Assign("m", "a")]
  }

  /** The agent is read while suspended, then reinstated, then given its mandate, and only then
      are its mandates read: the list says suspended of a mandate that never was. */
  lemma ListedThoughNeverMarked() returns (v: seq<bool>)
    ensures var world := StoreAt(LiftedMoments, EIGHT);
      && GoesOn(world, EIGHT) && Built(v, world, Suspension, EIGHT, map["a" := Read(1, 2)], 3)
      && v[0] && forall n: nat :: !Marked(world(n), Suspension, 0)
  {
    hide Run, GoesOn, SeenListed, ListsIndex, Built, Marked;
    var world := StoreAt(LiftedMoments, EIGHT);
    RunsGoOn(LiftedMoments, EIGHT);
    BlockedFirst(Suspension);
    LiftedThenLinked();
    v := Bits(true);
    forall i: nat
      ensures SeenListed(world, Suspension, "a", Read(1, 2), i) <==> i == 0
    {
      SeenInLinked(world, Suspension, Read(1, 2), map[], i);
    }
    OneAgentBuilt(world, Suspension, Read(1, 2), 3, true);
    forall n: nat
      ensures !Marked(world(n), Suspension, 0)
    {
      UnmarkedStores();
    }
  }

  lemma LiftedThenLinked()
    ensures Run(AgentBlocked(Suspension) + [Unblock("a")] + [Assign("m", "a")], EIGHT).store == LinkedStore(map[])
  {
    hide Run;
    var ops := AgentBlocked(Suspension);
    BlockedFirst(Suspension);
    RunOfSnoc(ops, Unblock("a"));
    RunOfSnoc(ops + [Unblock("a")], Assign("m", "a"));
    assert map["a" := KillOf(Suspension)] - {"a"} == map[];
    LinkAfter(Run(ops + [Unblock("a")], EIGHT), map[]);
  }

  lemma UnmarkedStores()
    ensures !Marked(BlockedStore(Suspension), Suspension, 0) && !Marked(LinkedStore(map[]), Suspension, 0)
  {
  }

  // ---------- One cause replaced by another during the build ----------

  function ReplacedMoments(n: nat): seq<Op> {
    var ops := AgentBlocked(Suspension) + [Assign("m", "a")];
    if n == 0 then ops else ops + [RevokeMandate("m", KillOf(Suspension))] + [Unblock("a")]
  }

  /** Suspended through its agent when the build begins, by itself before that block is read:
      the mandate is suspended at every moment, and not on the list. */
  lemma MissedThoughMarkedThroughout() returns (v: seq<bool>)
    ensures var world := StoreAt(ReplacedMoments, EIGHT);
      && GoesOn(world, EIGHT) && Built(v, world, Suspension, EIGHT, map["a" := Read(1, 1)], 1)
      && !v[0] && forall n: nat :: Marked(world(n), Suspension, 0)
  {
    hide Run, GoesOn, SeenListed, ListsIndex, Built, Marked;
    var world := StoreAt(ReplacedMoments, EIGHT);
    RunsGoOn(ReplacedMoments, EIGHT);
    LinkedAfterBlock(Suspension);
    KilledThenUnblocked();
    v := Bits(false);
    forall i: nat
      ensures !SeenListed(world, Suspension, "a", Read(1, 1), i)
    {
      NotSeen(world, Suspension, Read(1, 1), i);
    }
    OneAgentBuilt(world, Suspension, Read(1, 1), 1, false);
    forall n: nat
      ensures Marked(world(n), Suspension, 0)
    {
      MarkedStores();
    }
  }

  lemma NotSeen(world: nat -> Store, purpose: Purpose, r: Read, i: nat)
    requires "a" !in world(r.block).blocked
    ensures !SeenListed(world, purpose, "a", r, i)
  {
  }

  function ReplacedStore(): Store {
    LinkedStore(map[]).(records := map["m" := Record("m", Some(0), Suspension, None, None, Some("a"))])
  }

  lemma KilledThenUnblocked()
    ensures Run(AgentBlocked(Suspension) + [Assign("m", "a")] + [RevokeMandate("m", KillOf(Suspension))] + [Unblock("a")], EIGHT).store
      == ReplacedStore()
  {
    hide Run;
    var ops := AgentBlocked(Suspension) + [Assign("m", "a")];
    LinkedAfterBlock(Suspension);
    RunOfSnoc(ops, RevokeMandate("m", KillOf(Suspension)));
    RunOfSnoc(ops + [RevokeMandate("m", KillOf(Suspension))], Unblock("a"));
    assert map["a" := KillOf(Suspension)] - {"a"} == map[];
  }

  lemma MarkedStores()
    ensures Marked(LinkedStore(map["a" := KillOf(Suspension)]), Suspension, 0) && Marked(ReplacedStore(), Suspension, 0)
  {
    LinkedStoreLists(map["a" := KillOf(Suspension)], 0);
    assert "m" in ReplacedStore().records;
    assert "a" in LinkedStore(map["a" := KillOf(Suspension)]).blocked;
  }
}

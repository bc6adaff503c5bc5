/** What every schedule of the guard protocol keeps: the properties a caller relies on. */
module GuardSafety {
  import opened Prelude
  import opened SpendWindow
  import opened SpendBook
  import opened GuardProtocol

  // ---------- How a world goes on ----------

  /** What never changes once an attempt exists. */
  predicate Continues(s: World, s': World) {
    && |s.attempts| <= |s'.attempts|
    && (forall i :: 0 <= i < |s.attempts| ==> Same(s.attempts[i], s'.attempts[i]))
    && s.rail <= s'.rail && s.reclaimed <= s'.reclaimed && s.mistaken <= s'.mistaken
  }

  /** The request, the mandate, that a reservation was taken, that the rail was asked, and
      what became of the money. */
  predicate Same(a: Attempt, a': Attempt) {
    && a'.req == a.req && a'.mandate == a.mandate
    && (a.took ==> a'.took) && (a.railed ==> a'.railed)
    && (!a.fate.Unknown? ==> a'.fate == a.fate)
  }

  /** At most attempt i moved, and the rail only grew. */
  predicate Moved(s: World, s': World, i: nat) {
    && i < |s.attempts| == |s'.attempts|
    && s'.attempts == s.attempts[i := s'.attempts[i]]
    && Same(s.attempts[i], s'.attempts[i])
    && s'.reclaimed == s.reclaimed && s'.mistaken == s.mistaken
    && (s'.rail == s.rail || (At(s, i, Starting) && s'.rail == s.rail + [i]))
  }

  lemma ReserveMoves(s: World, i: nat, fault: Fault)
    requires At(s, i, Reserving)
    ensures Moved(s, StepReserve(s, i, fault), i)
  {
    hide ReserveAnswer, AfterReserve, Moved, Move;
    var a, answer := s.attempts[i], ReserveAnswer(s.book, s.attempts[i].req);
    var taken := if answer.Reserved? && !fault.Before?
      then s.(book := AfterReserve(s.book, a.req), takenBy := s.takenBy[IntentId(a) := i]) else s;
    MoveIsMoved(s, taken, i, AfterAnswer(a, answer, fault));
  }

  /** The stores may change, the attempt moves on. */
  lemma MoveIsMoved(s: World, stores: World, i: nat, a: Attempt)
    requires stores.attempts == s.attempts && stores.rail == s.rail
    requires stores.reclaimed == s.reclaimed && stores.mistaken == s.mistaken
    requires i < |s.attempts| && Same(s.attempts[i], a)
    ensures Moved(s, Move(stores, i, a), i)
  {
  }

  lemma ClaimMoves(s: World, i: nat, fault: Fault)
    requires At(s, i, Claiming) && s.attempts[i].mandate.Some?
    ensures Moved(s, StepClaim(s, i, fault), i)
  {
    hide UsesOf, Moved, Move;
    var a := s.attempts[i];
    var use, full := UseOf(a), |UsesOf(s.claims, a.mandate.value.id)| >= a.mandate.value.maxUses;
    var prior := if use in s.claims then Some(s.claims[use]) else None;
    var won := if !fault.Before? && prior.None? && !full then s.(claims := s.claims[use := Claim(a.digest, i)]) else s;
    MoveIsMoved(s, won, i, AfterClaiming(a, prior, full, fault));
  }

  lemma LookUpMoves(s: World, i: nat, known: bool, fault: Fault)
    requires At(s, i, LookingUp) && s.attempts[i].mandate.Some?
    ensures Moved(s, StepLookUp(s, i, known, fault), i)
  {
  }

  lemma SimpleStepsMove(s: World, i: nat, ok: bool)
    requires i < |s.attempts|
    ensures At(s, i, Recording) ==> Moved(s, StepRecord(s, i, ok), i)
    ensures At(s, i, Starting) ==> Moved(s, StepStart(s, i, ok), i)
  {
  }

  lemma StoreStepsMove(s: World, i: nat, fault: Fault)
    requires i < |s.attempts|
    ensures At(s, i, Committing) ==> Moved(s, StepCommit(s, i, fault), i)
    ensures s.attempts[i].pc.Releasing? ==> Moved(s, StepRelease(s, i, fault, s.attempts[i].pc.answer), i)
  {
    hide AfterCommit, AfterRelease;
  }

  lemma ResolveMoves(s: World, i: nat, charged: bool)
    requires i < |s.attempts| && s.attempts[i].fate.Unknown?
    ensures Moved(s, StepResolve(s, i, charged), i)
  {
  }

  lemma PlainMoves(s: World, i: nat, pc: Pc)
    requires i < |s.attempts|
    ensures Moved(s, Move(s, i, s.attempts[i].(pc := pc)), i)
  {
  }

  lemma MovedContinues(s: World, s': World, i: nat)
    requires Moved(s, s', i)
    ensures Continues(s, s') && |s'.attempts| == |s.attempts|
  {
  }

  lemma StayedContinues(s: World, s': World)
    requires s'.attempts == s.attempts && s'.rail == s.rail && s.reclaimed <= s'.reclaimed && s.mistaken <= s'.mistaken
    ensures Continues(s, s') && |s'.attempts| == |s.attempts|
  {
  }

  lemma BeginContinues(s: World, action: Action)
    requires action.Begin?
    ensures Continues(s, Step(s, action)) && Begun(s, Step(s, action), action)
  {
  }

  /** Only `Begin` adds an attempt, and it carries what was asked. */
  predicate Begun(s: World, s': World, action: Action) {
    |s'.attempts| > |s.attempts| ==>
      && action.Begin? && |s'.attempts| == |s.attempts| + 1
      && s'.attempts[|s.attempts|].req == action.req && s'.attempts[|s.attempts|].mandate == action.mandate
  }

  lemma StepContinues(s: World, action: Action)
    ensures Continues(s, Step(s, action)) && Begun(s, Step(s, action), action)
  {
    hide Continues, Moved, StepReserve, StepLookUp, StepClaim, StepRecord, StepStart, StepCommit, StepRelease, StepResolve, AfterCommit, AfterRelease, Holds, Move;
    var s' := Step(s, action);
    if action.Begin? {
      BeginContinues(s, action);
    } else if action.Report? || action.Reclaim? || action.i >= |s.attempts| || s' == s {
      StayedContinues(s, s');
    } else {
      var i := action.i;
      StepMoves(s, action);
      MovedContinues(s, s', i);
    }
  }

  lemma StepMoves(s: World, action: Action)
    requires !action.Begin? && !action.Report? && !action.Reclaim? && action.i < |s.attempts| && Step(s, action) != s
    ensures Moved(s, Step(s, action), action.i)
  {
    hide Moved, StepReserve, StepLookUp, StepClaim, StepRecord, StepStart, StepCommit, StepRelease, StepResolve, Move;
    var i := action.i;
    match action
    case Decide(_, allowed) => PlainMoves(s, i, if allowed then Reserving else Done(Denied));
    case Reserve(_, fault) => ReserveMoves(s, i, fault);
    case LookUp(_, known, fault) => LookUpMoves(s, i, known, fault);
    case Check(_, ok) => PlainMoves(s, i, if ok then Claiming else Releasing(Denied));
    case ClaimUse(_, fault) => ClaimMoves(s, i, fault);
    case Record(_, ok) => SimpleStepsMove(s, i, ok);
    case ReadFreeze(_, frozen) => PlainMoves(s, i, if frozen then Releasing(Denied) else Starting);
    case Start(_, ok) => SimpleStepsMove(s, i, ok);
    case Execute(_, ok) => PlainMoves(s, i, if ok then Committing else Done(Failed));
    case CommitSpend(_, fault) => StoreStepsMove(s, i, fault);
    case ReleaseOurs(_, fault) => StoreStepsMove(s, i, fault);
    case Resolve(_, charged) => ResolveMoves(s, i, charged);
  }

  lemma {:induction false} RunContinues(actions: seq<Action>, more: seq<Action>)
    ensures Continues(Run(actions), Run(actions + more))
  {
    hide Run, Step;
    if more == [] {
      assert actions + more == actions;
    } else {
      var n := |more| - 1;
      assert (actions + more)[..|actions + more| - 1] == actions + more[..n];
      RunContinues(actions, more[..n]);
      StepContinues(Run(actions + more[..n]), more[n]);
      RunUnfolds(actions + more);
    }
  }

  lemma RunUnfolds(actions: seq<Action>)
    requires actions != []
    ensures Run(actions) == Step(Run(actions[..|actions| - 1]), actions[|actions| - 1])
  {
  }

  // ---------- Hand releases ----------

  /** A hand release takes a reservation that is not committed and still needed: its attempt is
      running, or its payment moved money or may yet. This is what its caller must rule out. */
  predicate Mistake(s: World, action: Action, id: string) {
    action == Reclaim(id) && id !in s.book.committed && Needed(s, id)
  }

  predicate MistakenRelease(actions: seq<Action>, id: string) {
    exists n :: 0 <= n < |actions| && Mistake(Run(actions[..n]), actions[n], id)
  }

  lemma StepReclaims(s: World, action: Action, id: string)
    ensures id in Step(s, action).reclaimed ==> id in s.reclaimed || action == Reclaim(id)
    ensures id in Step(s, action).mistaken <==> id in s.mistaken || Mistake(s, action, id)
  {
    hide StepReserve, StepLookUp, StepClaim, StepRecord, StepStart, StepCommit, StepRelease, StepResolve, AfterCommit, AfterRelease, Holds;
    if !action.Begin? && !action.Report? && !action.Reclaim? && action.i < |s.attempts| && Step(s, action) != s {
      StepMoves(s, action);
    }
  }

  lemma {:induction false} OnlyOnRequest(actions: seq<Action>, id: string)
    requires id in Run(actions).reclaimed
    ensures Reclaim(id) in actions
  {
    if actions != [] {
      var before := actions[..|actions| - 1];
      StepReclaims(Run(before), actions[|actions| - 1], id);
      if id in Run(before).reclaimed {
        OnlyOnRequest(before, id);
      }
    }
  }

  lemma MistakenSnoc(before: seq<Action>, action: Action, id: string)
    ensures MistakenRelease(before + [action], id) <==> MistakenRelease(before, id) || Mistake(Run(before), action, id)
  {
    hide Run, Mistake;
    var all := before + [action];
    assert all[..|before|] == before;
    forall m | 0 <= m < |before|
      ensures all[..m] == before[..m] && all[m] == before[m]
    {
    }
    if m :| 0 <= m < |before| && Mistake(Run(before[..m]), before[m], id) {
      assert Mistake(Run(all[..m]), all[m], id);
    }
    if Mistake(Run(before), action, id) {
      assert Mistake(Run(all[..|before|]), all[|before|], id);
    }
  }

  /** The ids noted as mistakes are those some hand release of the schedule was a mistake for. */
  lemma {:induction false} MistakenIff(actions: seq<Action>, id: string)
    ensures id in Run(actions).mistaken <==> MistakenRelease(actions, id)
  {
    if actions == [] {
      assert Run(actions).mistaken == {};
    } else {
      hide Step, Mistake, MistakenRelease;
      var before, action := actions[..|actions| - 1], actions[|actions| - 1];
      assert actions == before + [action];
      MistakenIff(before, id);
      MistakenSnoc(before, action, id);
      StepReclaims(Run(before), action, id);
    }
  }

  // ---------- One reservation, one payment ----------

  /** Someone asked for this reservation back, with proof that its payment moved no money. */
  predicate GaveUp(s: World, i: nat) {
    i < |s.attempts| && s.attempts[i].fate.Uncharged? && IntentId(s.attempts[i]) in s.reclaimed
  }

  /** Every payment that was sent to the rail stands on a reservation it made itself, still
      held; otherwise it was given back on request, after it provably moved no money or by
      a mistaken hand release. */
  lemma RailOwnsReservation(actions: seq<Action>, k: nat)
    requires k < |Run(actions).rail|
    ensures var s := Run(actions);
      && s.rail[k] < |s.attempts|
      && s.attempts[s.rail[k]].took && s.attempts[s.rail[k]].railed
      && (Owns(s, s.rail[k], s.attempts[s.rail[k]]) || GaveUp(s, s.rail[k])
          || MistakenRelease(actions, IntentId(s.attempts[s.rail[k]])))
  {
    hide Run, WellKept, HasId, MistakenRelease;
    RunKeepsInv(actions);
    var s := Run(actions);
    assert s.attempts[s.rail[k]].railed;
    SoundOf(s, s.rail[k]);
    MistakenIff(actions, IntentId(s.attempts[s.rail[k]]));
  }

  /** No two payments that moved money, or may yet, carry the same intent id, unless a hand
      release took the reservation of one while it was needed. */
  lemma ChargedAtMostOnce(actions: seq<Action>, i: nat, j: nat)
    requires var s := Run(actions); i < |s.attempts| && j < |s.attempts| && i != j
    requires var s := Run(actions); MayCharge(s.attempts[i]) && MayCharge(s.attempts[j])
    ensures var s := Run(actions);
      IntentId(s.attempts[i]) == IntentId(s.attempts[j]) ==> MistakenRelease(actions, IntentId(s.attempts[i]))
  {
    hide Run, WellKept, HasId, IntentId, MistakenRelease;
    RunKeepsInv(actions);
    MistakenIff(actions, IntentId(Run(actions).attempts[i]));
    SoundOf(Run(actions), i);
    SoundOf(Run(actions), j);
  }

  /** The money moved, or the rail was asked and nobody has proved that it did not. */
  predicate MayCharge(a: Attempt) {
    a.fate.Charged? || (a.railed && a.fate.Unknown?)
  }

  /** Of two payments sent under one intent id, the earlier was given up first, or lost its
      reservation by mistake. */
  predicate RailOrdered(s: World) {
    forall k, l :: 0 <= k < l < |s.rail| ==> InOrder(s, s.rail[k], s.rail[l])
  }

  predicate InOrder(s: World, i: nat, j: nat) {
    i < |s.attempts| && j < |s.attempts| && (IntentId(s.attempts[i]) == IntentId(s.attempts[j]) ==> GaveUp(s, i) || IntentId(s.attempts[i]) in s.mistaken)
  }

  lemma InOrderStays(s: World, s': World, i: nat, j: nat)
    requires Continues(s, s') && InOrder(s, i, j)
    ensures InOrder(s', i, j)
  {
    assert Same(s.attempts[i], s'.attempts[i]) && Same(s.attempts[j], s'.attempts[j]);
  }

  /** A payment about to be sent holds its intent's reservation, so any earlier one gave it up. */
  lemma NextInOrder(s: World, i: nat, j: nat)
    requires Inv(s) && i < |s.attempts| && s.attempts[i].railed && At(s, j, Starting)
    ensures InOrder(s, i, j)
  {
    hide WellKept, HasId, IntentId, TakenRight, RailRight;
    SoundOf(s, i);
    SoundOf(s, j);
  }

  lemma StepKeepsRailOrdered(s: World, action: Action)
    requires Inv(s) && RailOrdered(s)
    ensures RailOrdered(Step(s, action))
  {
    hide Inv, Step, Continues, InOrder;
    StepContinues(s, action);
    var i := StepRails(s, action);
    RailIsRailed(s);
    var s' := Step(s, action);
    forall k, l | 0 <= k < l < |s'.rail|
      ensures InOrder(s', s'.rail[k], s'.rail[l])
    {
      if l == |s.rail| {
        NextInOrder(s, s.rail[k], i);
      }
      InOrderStays(s, s', s'.rail[k], s'.rail[l]);
    }
  }

  lemma RailIsRailed(s: World)
    requires Inv(s)
    ensures forall k :: 0 <= k < |s.rail| ==> s.rail[k] < |s.attempts| && s.attempts[s.rail[k]].railed
  {
    hide WellKept, HasId, TakenRight, Sound;
  }

  lemma StepRails(s: World, action: Action) returns (i: nat)
    ensures var s' := Step(s, action);
      s'.rail == s.rail || (At(s, i, Starting) && s'.rail == s.rail + [i])
  {
    hide StepReserve, StepLookUp, StepClaim, StepRecord, StepStart, StepCommit, StepRelease, StepResolve, AfterCommit, AfterRelease, Holds;
    i := 0;
    if !action.Begin? && !action.Report? && !action.Reclaim? && action.i < |s.attempts| && Step(s, action) != s {
      StepMoves(s, action);
      i := action.i;
    }
  }

  lemma {:induction false} RunIsRailOrdered(actions: seq<Action>)
    ensures RailOrdered(Run(actions))
  {
    if actions != [] {
      hide Step, Inv, RailOrdered;
      RunKeepsInv(actions[..|actions| - 1]);
      RunIsRailOrdered(actions[..|actions| - 1]);
      StepKeepsRailOrdered(Run(actions[..|actions| - 1]), actions[|actions| - 1]);
    } else {
      assert Run(actions).rail == [];
    }
  }

  /** An intent id is sent to the rail a second time only after the earlier payment provably
      moved no money and a caller asked for its reservation back, or by a mistaken hand
      release: without hand releases, at most once, whatever mandates it is presented under. */
  lemma RailAtMostOnce(actions: seq<Action>, k: nat, l: nat)
    requires k < l < |Run(actions).rail|
    ensures var s := Run(actions);
      && s.rail[k] < |s.attempts| && s.rail[l] < |s.attempts| && s.rail[k] != s.rail[l]
      && var first, second := s.attempts[s.rail[k]], s.attempts[s.rail[l]];
      && (IntentId(first) == IntentId(second) ==>
          (first.fate.Uncharged? && Reclaim(IntentId(first)) in actions) || MistakenRelease(actions, IntentId(first)))
  {
    hide Run, WellKept, HasId, IntentId, MistakenRelease;
    RunKeepsInv(actions);
    RunIsRailOrdered(actions);
    var s := Run(actions);
    assert InOrder(s, s.rail[k], s.rail[l]);
    MistakenIff(actions, IntentId(s.attempts[s.rail[k]]));
    if GaveUp(s, s.rail[k]) {
      OnlyOnRequest(actions, IntentId(s.attempts[s.rail[k]]));
    }
  }

  /** The reservation under a payment is never released, whatever happens afterwards, unless
      its money provably never moved and someone asked for it back, or by a mistaken hand
      release. */
  lemma RailReservationStays(actions: seq<Action>, more: seq<Action>, k: nat)
    requires k < |Run(actions).rail|
    ensures var s, s' := Run(actions), Run(actions + more);
      && s.rail[k] < |s.attempts| <= |s'.attempts|
      && s'.attempts[s.rail[k]].req == s.attempts[s.rail[k]].req
      && var a := s'.attempts[s.rail[k]];
      && ((UsableAmount(a.req.amountMinor) && NewRow(a.req) in s'.book.rows)
          || (a.fate.Uncharged? && Reclaim(IntentId(a)) in actions + more)
          || MistakenRelease(actions + more, IntentId(a)))
      && (s.attempts[s.rail[k]].fate.Charged? ==> a.fate.Charged?)
  {
    hide Run, WellKept, HasId, IntentId, MistakenRelease;
    RunContinues(actions, more);
    RailOwnsReservation(actions, k);
    RailOwnsReservation(actions + more, k);
    var s, s' := Run(actions), Run(actions + more);
    assert Same(s.attempts[s.rail[k]], s'.attempts[s.rail[k]]);
    if GaveUp(s', s.rail[k]) {
      OnlyOnRequest(actions + more, IntentId(s'.attempts[s.rail[k]]));
    }
  }

  /** Every reservation in the book has an owner that is running, was sent to the rail, saw a
      store call fail, or was reported and committed as executed: refusals and replays leave
      nothing behind. */
  lemma EveryReservationAccounted(actions: seq<Action>, id: string)
    requires HasId(Run(actions).book.rows, id)
    ensures var s := Run(actions);
      && id in s.takenBy && s.takenBy[id] < |s.attempts|
      && var a := s.attempts[s.takenBy[id]];
      && IntentId(a) == id && a.took
      && (!a.pc.Done? || a.railed || a.threw || (id in s.book.committed && (id in s.reported || MistakenRelease(actions, id))))
  {
    hide Run, WellKept, HasId, MistakenRelease;
    MistakenIff(actions, id);
    RunKeepsInv(actions);
    var s := Run(actions);
    assert TakenRight(s, id);
    SoundOf(s, s.takenBy[id]);
  }

  // ---------- Mandate uses ----------

  /** Whoever presents this mandate id presents a signed use count of at most `most`. */
  predicate Presents(action: Action, mandateId: string, most: nat) {
    action.Begin? ==> Grants(action.mandate, mandateId, most)
  }

  predicate Grants(mandate: Option<Mandate>, mandateId: string, most: nat) {
    mandate.Some? && mandate.value.id == mandateId ==> mandate.value.maxUses <= most
  }

  predicate UsesWithin(s: World, mandateId: string, most: nat) {
    && |UsesOf(s.claims, mandateId)| <= most
    && forall i :: 0 <= i < |s.attempts| ==> Grants(s.attempts[i].mandate, mandateId, most)
  }

  lemma UsesOfInsert(claims: map<Use, Claim>, use: Use, claim: Claim, mandateId: string)
    requires use !in claims
    ensures UsesOf(claims[use := claim], mandateId) == UsesOf(claims, mandateId) + if use.mandateId == mandateId then {use} else {}
    ensures use !in UsesOf(claims, mandateId)
  {
  }

  lemma ClaimCounts(s: World, i: nat, fault: Fault, mandateId: string, most: nat)
    requires At(s, i, Claiming) && s.attempts[i].mandate.Some? && Grants(s.attempts[i].mandate, mandateId, most)
    requires |UsesOf(s.claims, mandateId)| <= most
    ensures |UsesOf(StepClaim(s, i, fault).claims, mandateId)| <= most
  {
    hide UsesOf;
    var a := s.attempts[i];
    if UseOf(a) !in s.claims {
      UsesOfInsert(s.claims, UseOf(a), Claim(a.digest, i), mandateId);
    }
  }

  lemma StepKeepsUses(s: World, action: Action, mandateId: string, most: nat)
    requires UsesWithin(s, mandateId, most) && Presents(action, mandateId, most)
    ensures UsesWithin(Step(s, action), mandateId, most)
  {
    hide UsesOf, Step;
    var s' := Step(s, action);
    StepContinues(s, action);
    ClaimsBounded(s, action, mandateId, most);
    forall i | 0 <= i < |s'.attempts|
      ensures Grants(s'.attempts[i].mandate, mandateId, most)
    {
      if i < |s.attempts| {
        assert Grants(s.attempts[i].mandate, mandateId, most) && Same(s.attempts[i], s'.attempts[i]);
      }
    }
  }

  lemma ClaimsBounded(s: World, action: Action, mandateId: string, most: nat)
    requires UsesWithin(s, mandateId, most)
    ensures |UsesOf(Step(s, action).claims, mandateId)| <= most
  {
    hide UsesOf, StepClaim;
    if !action.ClaimUse? {
    } else if At(s, action.i, Claiming) && s.attempts[action.i].mandate.Some? {
      assert Grants(s.attempts[action.i].mandate, mandateId, most);
      ClaimCounts(s, action.i, action.fault, mandateId, most);
    }
  }

  lemma {:induction false} RunKeepsUses(actions: seq<Action>, mandateId: string, most: nat)
    requires forall k :: 0 <= k < |actions| ==> Presents(actions[k], mandateId, most)
    ensures UsesWithin(Run(actions), mandateId, most)
  {
    hide Step;
    if actions == [] {
      assert UsesOf(map[], mandateId) == {};
    } else {
      RunKeepsUses(actions[..|actions| - 1], mandateId, most);
      StepKeepsUses(Run(actions[..|actions| - 1]), actions[|actions| - 1], mandateId, most);
    }
  }

  /** The payments made under a mandate, by attempt. */
  function PaidUnder(s: World, mandateId: string): set<nat> {
    set k | 0 <= k < |s.rail| && s.rail[k] < |s.attempts| && UnderMandate(s.attempts[s.rail[k]], mandateId) :: s.rail[k]
  }

  predicate UnderMandate(a: Attempt, mandateId: string) {
    a.mandate.Some? && a.mandate.value.id == mandateId
  }

  function Winners(claims: map<Use, Claim>, uses: set<Use>): set<nat>
    requires uses <= claims.Keys
  {
    set u | u in uses :: claims[u].winner
  }

  lemma {:induction false} FewerWinners(claims: map<Use, Claim>, uses: set<Use>, paid: set<nat>)
    requires uses <= claims.Keys && paid <= Winners(claims, uses)
    ensures |paid| <= |uses|
    decreases |uses|
  {
    if uses == {} {
      assert paid == {};
    } else {
      var u :| u in uses;
      var rest := paid - {claims[u].winner};
      FewerWinners(claims, uses - {u}, rest);
      assert |paid| <= |rest + {claims[u].winner}| by {
        SubsetSize(paid, rest + {claims[u].winner});
      }
    }
  }

  /** No mandate is claimed, nor sent to the rail under, more often than its signed use count:
      should presenters differ, than the largest count presented. */
  lemma MandateUsesBounded(actions: seq<Action>, mandateId: string, most: nat)
    requires forall k :: 0 <= k < |actions| ==> Presents(actions[k], mandateId, most)
    ensures |PaidUnder(Run(actions), mandateId)| <= |UsesOf(Run(actions).claims, mandateId)| <= most
  {
    hide Run, WellKept, HasId, Presents;
    RunKeepsUses(actions, mandateId, most);
    RunKeepsInv(actions);
    var s := Run(actions);
    forall i | i in PaidUnder(s, mandateId)
      ensures i in Winners(s.claims, UsesOf(s.claims, mandateId))
    {
      var k :| 0 <= k < |s.rail| && s.rail[k] == i;
      assert s.attempts[i].railed;
      SoundOf(s, i);
      assert UseOf(s.attempts[i]) in UsesOf(s.claims, mandateId);
    }
    FewerWinners(s.claims, UsesOf(s.claims, mandateId), PaidUnder(s, mandateId));
  }

  // ---------- Caps on what was paid ----------

  /** Every attempt on this budget is checked against the window. */
  predicate Polices(action: Action, scope: string, currency: string, w: Window) {
    action.Begin? && action.req.scope == scope && action.req.currency == currency ==> w in action.req.windows
  }

  predicate CarriesIt(a: Attempt, scope: string, currency: string, w: Window) {
    a.req.scope == scope && a.req.currency == currency ==> w in a.req.windows
  }

  predicate Policed(s: World, scope: string, currency: string, w: Window)
    requires WellFormed(w)
  {
    && Rolling(w, InScope(s.book.rows, scope, currency))
    && forall i :: 0 <= i < |s.attempts| ==> CarriesIt(s.attempts[i], scope, currency, w)
  }

  lemma BookStep(s: World, action: Action)
    ensures var rows, rows' := s.book.rows, Step(s, action).book.rows;
      || rows' == rows
      || (exists i :: 0 <= i < |s.attempts| && Step(s, action).book == AfterReserve(s.book, s.attempts[i].req))
      || (exists id :: Step(s, action).book == AfterRelease(s.book, id))
  {
    hide ReserveAnswer, AfterReserve, AfterRelease, UsesOf, Holds;
    if action.Reserve? && At(s, action.i, Reserving) {
      assert Step(s, action).book == s.book || Step(s, action).book == AfterReserve(s.book, s.attempts[action.i].req);
    } else if action.ReleaseOurs? && action.i < |s.attempts| && s.attempts[action.i].pc.Releasing? {
      assert Step(s, action).book == s.book || Step(s, action).book == AfterRelease(s.book, IntentId(s.attempts[action.i]));
    } else if action.Reclaim? {
      assert Step(s, action).book == s.book || Step(s, action).book == AfterRelease(s.book, action.intentId);
    }
  }

  lemma StepKeepsPoliced(s: World, action: Action, scope: string, currency: string, w: Window)
    requires WellFormed(w) && Policed(s, scope, currency, w) && Polices(action, scope, currency, w)
    ensures Policed(Step(s, action), scope, currency, w)
  {
    hide WellFormed, Rolling, InScope, Step, AfterReserve, AfterRelease;
    BookStep(s, action);
    StepContinues(s, action);
    var s' := Step(s, action);
    if s'.book.rows != s.book.rows {
      if i :| 0 <= i < |s.attempts| && s'.book == AfterReserve(s.book, s.attempts[i].req) {
        assert CarriesIt(s.attempts[i], scope, currency, w);
        ApplyKeepsRolling(s.book, DoReserve(s.attempts[i].req), scope, currency, w);
      } else {
        var id :| s'.book == AfterRelease(s.book, id);
        ApplyKeepsRolling(s.book, DoRelease(id), scope, currency, w);
      }
    }
  }

  lemma {:induction false} RunIsPoliced(actions: seq<Action>, scope: string, currency: string, w: Window)
    requires WellFormed(w) && forall k :: 0 <= k < |actions| ==> Polices(actions[k], scope, currency, w)
    ensures Policed(Run(actions), scope, currency, w)
  {
    hide WellFormed, Step, Polices, Fits;
    if actions != [] {
      RunIsPoliced(actions[..|actions| - 1], scope, currency, w);
      StepKeepsPoliced(Run(actions[..|actions| - 1]), actions[|actions| - 1], scope, currency, w);
    }
  }

  /** What was paid from a budget, in the order it reached the rail. */
  function Paid(attempts: seq<Attempt>, rail: seq<nat>, scope: string, currency: string): seq<Spend> {
    if rail == [] then []
    else
      var before, i := Paid(attempts, rail[..|rail| - 1], scope, currency), rail[|rail| - 1];
      if i < |attempts| && UsableAmount(attempts[i].req.amountMinor)
         && attempts[i].req.scope == scope && attempts[i].req.currency == currency
      then before + [NewRow(attempts[i].req).spend] else before
  }

  function Weight(w: Window, r: Row, scope: string, currency: string, t: real, merchant: string): nat
    requires w.windowMs.Finite?
  {
    if r.scope == scope && r.currency == currency && Within(w, r.spend, t, merchant) then r.spend.amountMinor else 0
  }

  function Unit(w: Window, r: Row, scope: string, currency: string, t: real, merchant: string): nat
    requires w.windowMs.Finite?
  {
    if r.scope == scope && r.currency == currency && Within(w, r.spend, t, merchant) then 1 else 0
  }

  predicate AddsUp(w: Window, more: seq<Spend>, fewer: seq<Spend>, r: Row, scope: string, currency: string, t: real, merchant: string)
    requires w.windowMs.Finite?
  {
    && TotalWithin(w, more, t, merchant) == TotalWithin(w, fewer, t, merchant) + Weight(w, r, scope, currency, t, merchant)
    && CountWithin(w, more, t, merchant) == CountWithin(w, fewer, t, merchant) + Unit(w, r, scope, currency, t, merchant)
  }

  lemma SnocAddsUp(w: Window, rows: seq<Row>, r: Row, scope: string, currency: string, t: real, merchant: string)
    requires w.windowMs.Finite?
    ensures AddsUp(w, InScope(rows + [r], scope, currency), InScope(rows, scope, currency), r, scope, currency, t, merchant)
  {
    InScopeSnoc(rows, r, scope, currency);
    var before := InScope(rows, scope, currency);
    assert (before + [r.spend])[..|before|] == before;
  }

  /** Taking one reservation out lowers the totals by exactly its share. */
  lemma {:induction false} WithoutAddsUp(w: Window, rows: seq<Row>, row: Row, scope: string, currency: string, t: real, merchant: string)
    requires w.windowMs.Finite? && DistinctIds(rows) && row in rows
    ensures AddsUp(w, InScope(rows, scope, currency), InScope(Without(rows, row.id), scope, currency), row, scope, currency, t, merchant)
  {
    hide InScope, TotalWithin, CountWithin, Without, Weight, Unit;
    var before, last := rows[..|rows| - 1], rows[|rows| - 1];
    assert rows == before + [last];
    SnocAddsUp(w, before, last, scope, currency, t, merchant);
    WithoutSnoc(before, last, row.id);
    if last == row {
      WithoutAbsent(before, row.id);
    } else {
      WithoutAddsUp(w, before, row, scope, currency, t, merchant);
      SnocAddsUp(w, Without(before, row.id), last, scope, currency, t, merchant);
    }
  }

  /** The rail's payments are backed by distinct rows. */
  predicate Backed(attempts: seq<Attempt>, rail: seq<nat>, rows: seq<Row>) {
    && DistinctIds(rows)
    && (forall k :: 0 <= k < |rail| ==> BackedBy(attempts, rail[k], rows))
    && (forall k, l :: 0 <= k < l < |rail| ==> OtherIntent(attempts, rail[k], rail[l]))
  }

  predicate BackedBy(attempts: seq<Attempt>, i: nat, rows: seq<Row>) {
    i < |attempts| && UsableAmount(attempts[i].req.amountMinor) && NewRow(attempts[i].req) in rows
  }

  predicate OtherIntent(attempts: seq<Attempt>, i: nat, j: nat) {
    i < |attempts| && j < |attempts| && IntentId(attempts[i]) != IntentId(attempts[j])
  }

  predicate NoMoreThan(w: Window, a: seq<Spend>, b: seq<Spend>, t: real, merchant: string)
    requires w.windowMs.Finite?
  {
    TotalWithin(w, a, t, merchant) <= TotalWithin(w, b, t, merchant) && CountWithin(w, a, t, merchant) <= CountWithin(w, b, t, merchant)
  }

  lemma BackedRest(attempts: seq<Attempt>, rail: seq<nat>, rows: seq<Row>)
    requires Backed(attempts, rail, rows) && rail != []
    ensures BackedBy(attempts, rail[|rail| - 1], rows)
    ensures Backed(attempts, rail[..|rail| - 1], Without(rows, IntentId(attempts[rail[|rail| - 1]])))
  {
    var n := |rail| - 1;
    var id := IntentId(attempts[rail[n]]);
    WithoutKeepsOrder(rows, id);
    hide Without, DistinctIds;
    forall k | 0 <= k < n
      ensures BackedBy(attempts, rail[k], Without(rows, id))
    {
      assert BackedBy(attempts, rail[k], rows) && OtherIntent(attempts, rail[k], rail[n]);
    }
  }

  lemma {:induction false} PaidWithinBook(w: Window, attempts: seq<Attempt>, rail: seq<nat>, rows: seq<Row>,
                                          scope: string, currency: string, t: real, merchant: string)
    requires w.windowMs.Finite? && Backed(attempts, rail, rows)
    ensures NoMoreThan(w, Paid(attempts, rail, scope, currency), InScope(rows, scope, currency), t, merchant)
    decreases |rail|
  {
    if rail != [] {
      hide InScope, TotalWithin, CountWithin, Without, Weight, Unit, Paid, DistinctIds;
      var i := rail[|rail| - 1];
      BackedRest(attempts, rail, rows);
      var row := NewRow(attempts[i].req);
      PaidWithinBook(w, attempts, rail[..|rail| - 1], Without(rows, row.id), scope, currency, t, merchant);
      WithoutAddsUp(w, rows, row, scope, currency, t, merchant);
    }
  }

  /** The payments that moved money, or may yet, in the order they were sent, but for the
      intents whose reservation a hand release took by mistake. */
  function Live(attempts: seq<Attempt>, rail: seq<nat>, mistaken: set<string>): (live: seq<nat>)
    ensures forall k :: 0 <= k < |live| ==> live[k] in rail
  {
    if rail == [] then []
    else
      var before, i := Live(attempts, rail[..|rail| - 1], mistaken), rail[|rail| - 1];
      if i < |attempts| && !attempts[i].fate.Uncharged? && IntentId(attempts[i]) !in mistaken then before + [i] else before
  }

  lemma {:induction false} LiveIsLive(attempts: seq<Attempt>, rail: seq<nat>, mistaken: set<string>)
    requires forall k, l :: 0 <= k < l < |rail| ==> rail[k] != rail[l]
    ensures AllLive(attempts, Live(attempts, rail, mistaken), mistaken)
  {
    if rail != [] {
      var before := Live(attempts, rail[..|rail| - 1], mistaken);
      LiveIsLive(attempts, rail[..|rail| - 1], mistaken);
      assert forall k :: 0 <= k < |before| ==> before[k] in rail[..|rail| - 1];
    }
  }

  predicate AllLive(attempts: seq<Attempt>, live: seq<nat>, mistaken: set<string>) {
    && (forall k :: 0 <= k < |live| ==> IsLive(attempts, live[k], mistaken))
    && (forall k, l :: 0 <= k < l < |live| ==> live[k] != live[l])
  }

  predicate IsLive(attempts: seq<Attempt>, i: nat, mistaken: set<string>) {
    i < |attempts| && !attempts[i].fate.Uncharged? && IntentId(attempts[i]) !in mistaken
  }

  lemma RunIsBacked(actions: seq<Action>)
    ensures var s := Run(actions); Backed(s.attempts, Live(s.attempts, s.rail, s.mistaken), s.book.rows)
  {
    hide Run, HasId, DistinctIds, Sound, Owns, Live, MistakenRelease;
    RunKeepsInv(actions);
    var s := Run(actions);
    LiveIsLive(s.attempts, s.rail, s.mistaken);
    var live := Live(s.attempts, s.rail, s.mistaken);
    forall k | 0 <= k < |live|
      ensures BackedBy(s.attempts, live[k], s.book.rows) && MayCharge(s.attempts[live[k]])
    {
      assert IsLive(s.attempts, live[k], s.mistaken);
      MistakenIff(actions, IntentId(s.attempts[live[k]]));
      var r :| 0 <= r < |s.rail| && s.rail[r] == live[k];
      RailOwnsReservation(actions, r);
      OwnedIsBacked(s, live[k]);
    }
    forall k, l | 0 <= k < l < |live|
      ensures OtherIntent(s.attempts, live[k], live[l])
    {
      assert IsLive(s.attempts, live[k], s.mistaken);
      MistakenIff(actions, IntentId(s.attempts[live[k]]));
      ChargedAtMostOnce(actions, live[k], live[l]);
    }
  }

  lemma OwnedIsBacked(s: World, i: nat)
    requires i < |s.attempts| && Owns(s, i, s.attempts[i])
    ensures BackedBy(s.attempts, i, s.book.rows)
  {
  }

  /** However the attempts interleave, the payments that moved money or may yet stay within
      every policy window, but for intents whose reservation a mistaken hand release took. */
  lemma PaidStaysWithinCap(actions: seq<Action>, scope: string, currency: string, w: Window, t: real, merchant: string)
    requires WellFormed(w) && forall k :: 0 <= k < |actions| ==> Polices(actions[k], scope, currency, w)
    ensures var s := Run(actions);
      CapHolds(w, Paid(s.attempts, Live(s.attempts, s.rail, s.mistaken), scope, currency), t, merchant)
  {
    hide Run, Polices, Rolling, InScope, Backed, Paid, TotalWithin, CountWithin, Live;
    var s := Run(actions);
    RunIsPoliced(actions, scope, currency, w);
    RollingMeansCap(w, InScope(s.book.rows, scope, currency), t, merchant);
    RunIsBacked(actions);
    PaidWithinBook(w, s.attempts, Live(s.attempts, s.rail, s.mistaken), s.book.rows, scope, currency, t, merchant);
  }
}

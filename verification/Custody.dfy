/** Who holds a reservation, and for how long: exactly when a denied payment leaves one behind,
  and exactly when the row of a payment, executed or not, survives later releases.
 */
module Custody {
  import opened Prelude
  import opened SpendWindow
  import opened SpendBook
  import opened GuardProtocol
  import opened GuardSafety

  // ---------- What a step does to one reservation ----------

  /** Attempt i made the reservation now kept under this id. */
  predicate HeldBy(s: World, id: string, i: nat) {
    id in s.takenBy && s.takenBy[id] == i
  }

  /** The action makes a reservation under this id. */
  predicate Takes(s: World, action: Action, id: string) {
    && action.Reserve? && !action.fault.Before? && At(s, action.i, Reserving)
    && ReserveAnswer(s.book, s.attempts[action.i].req).Reserved? && IntentId(s.attempts[action.i]) == id
  }

  /** The action commits what is kept under this id: an executed outcome is reported for it, or
      the pipeline's own commit of a payment under it takes effect. */
  predicate Commits(s: World, action: Action, id: string) {
    || action == Report(id)
    || (action.CommitSpend? && !action.fault.Before? && At(s, action.i, Committing) && IntentId(s.attempts[action.i]) == id)
  }

  /** The action releases what is kept under this id, unless it is committed: by hand, or by
      an attempt giving back what it took. */
  predicate Releases(s: World, action: Action, id: string) {
    || action == Reclaim(id)
    || (&& action.ReleaseOurs? && !action.fault.Before? && action.i < |s.attempts|
        && s.attempts[action.i].pc.Releasing? && s.attempts[action.i].took && IntentId(s.attempts[action.i]) == id)
  }

  /** Who holds the id, and whether it is committed, from one world to the next. */
  predicate Effect(s: World, s': World, action: Action, id: string) {
    && (id in s'.book.committed <==> id in s.book.committed || (Commits(s, action, id) && HasId(s.book.rows, id)))
    && if Takes(s, action, id) then HeldBy(s', id, action.i)
       else if Releases(s, action, id) && id !in s.book.committed then id !in s'.takenBy
       else SameHolder(s, s', id)
  }

  predicate SameHolder(s: World, s': World, id: string) {
    (id in s'.takenBy <==> id in s.takenBy) && (id in s.takenBy ==> s'.takenBy[id] == s.takenBy[id])
  }

  /** The stores of the steps that touch neither book nor custody. */
  predicate Untouched(s: World, s': World) {
    s'.book == s.book && s'.takenBy == s.takenBy
  }

  lemma ReserveEffect(s: World, i: nat, fault: Fault, id: string)
    requires At(s, i, Reserving)
    ensures Effect(s, StepReserve(s, i, fault), Reserve(i, fault), id)
  {
    hide ReserveAnswer, HasId, NewRow;
    ReserveKeepsCommitted(s.book, s.attempts[i].req);
    hide AfterReserve;
  }

  lemma ReserveKeepsCommitted(book: Book, req: Request)
    ensures AfterReserve(book, req).committed == book.committed
  {
    hide ReserveAnswer;
  }

  lemma CommitEffect(s: World, i: nat, fault: Fault, id: string)
    requires At(s, i, Committing)
    ensures Effect(s, StepCommit(s, i, fault), CommitSpend(i, fault), id)
  {
    hide HasId;
  }

  lemma ReleaseEffect(s: World, i: nat, fault: Fault, id: string)
    requires i < |s.attempts| && s.attempts[i].pc.Releasing?
    ensures Effect(s, StepRelease(s, i, fault, s.attempts[i].pc.answer), ReleaseOurs(i, fault), id)
  {
    hide HasId, Without;
  }

  lemma OtherStepsTouchNothing(s: World, action: Action)
    requires action.Begin? || action.Decide? || action.LookUp? || action.Check? || action.ClaimUse? || action.Record?
      || action.ReadFreeze? || action.Start? || action.Execute? || action.Resolve?
    ensures Untouched(s, Step(s, action))
  {
    hide UsesOf, UseOf;
  }

  lemma HandEffect(s: World, action: Action, id: string)
    requires action.Report? || action.Reclaim?
    ensures Effect(s, Step(s, action), action, id)
  {
    hide HasId, Without, Needed;
  }

  lemma StepEffect(s: World, action: Action, id: string)
    ensures Effect(s, Step(s, action), action, id)
  {
    hide StepReserve, StepCommit, StepRelease, StepReclaim, HasId, ReserveAnswer, AfterCommit;
    match action
    case Reserve(i, fault) =>
      if At(s, i, Reserving) {
        ReserveEffect(s, i, fault, id);
      }
    case CommitSpend(i, fault) =>
      if At(s, i, Committing) {
        CommitEffect(s, i, fault, id);
      }
    case ReleaseOurs(i, fault) =>
      if i < |s.attempts| && s.attempts[i].pc.Releasing? {
        ReleaseEffect(s, i, fault, id);
      }
    case Report(_) => HandEffect(s, action, id);
    case Reclaim(_) => HandEffect(s, action, id);
    case _ =>
      hide Step;
      OtherStepsTouchNothing(s, action);
  }

  // ---------- Committed while held ----------

  predicate CommittedWhileHeld(actions: seq<Action>, i: nat, id: string) {
    exists n :: 0 <= n < |actions| && HeldCommit(Run(actions[..n]), actions[n], i, id)
  }

  predicate HeldCommit(s: World, action: Action, i: nat, id: string) {
    HeldBy(s, id, i) && Commits(s, action, id)
  }

  predicate Secure(s: World, i: nat, id: string) {
    HeldBy(s, id, i) && id in s.book.committed
  }

  lemma CommittedWhileHeldSnoc(before: seq<Action>, action: Action, i: nat, id: string)
    ensures CommittedWhileHeld(before + [action], i, id) <==> CommittedWhileHeld(before, i, id) || HeldCommit(Run(before), action, i, id)
  {
    hide Run, HeldCommit;
    var all := before + [action];
    assert all[..|before|] == before;
    forall m | 0 <= m < |before|
      ensures all[..m] == before[..m] && all[m] == before[m]
    {
    }
    if m :| 0 <= m < |before| && HeldCommit(Run(before[..m]), before[m], i, id) {
      assert HeldCommit(Run(all[..m]), all[m], i, id);
    }
    if HeldCommit(Run(before), action, i, id) {
      assert HeldCommit(Run(all[..|before|]), all[|before|], i, id);
    }
  }

  lemma HeldHasRow(s: World, id: string)
    requires Inv(s)
    ensures id in s.takenBy <==> HasId(s.book.rows, id)
    ensures id in s.book.committed ==> id in s.takenBy
  {
    hide HasId, Sound, TakenRight, RailRight;
  }

  lemma StepSecure(s: World, action: Action, i: nat, id: string)
    requires Inv(s)
    ensures Secure(Step(s, action), i, id) <==> Secure(s, i, id) || HeldCommit(s, action, i, id)
  {
    hide Inv, Step, HasId, Commits;
    StepEffect(s, action, id);
    HeldHasRow(s, id);
    if Takes(s, action, id) {
      TakenIsNew(s, action, id);
    }
    if Releases(s, action, id) {
      NotBoth(s, action, id);
    }
  }

  lemma TakenIsNew(s: World, action: Action, id: string)
    requires Inv(s) && Takes(s, action, id)
    ensures id !in s.takenBy && !Commits(s, action, id)
  {
    TakeIds(s, s.attempts[action.i].req);
  }

  lemma NotBoth(s: World, action: Action, id: string)
    requires Releases(s, action, id)
    ensures !Commits(s, action, id)
  {
  }

  /** A reservation is held and committed exactly when it was committed while held: from then
      on nothing takes it away. */
  lemma {:induction false} SecureIffCommittedWhileHeld(actions: seq<Action>, i: nat, id: string)
    ensures HeldBy(Run(actions), id, i) && id in Run(actions).book.committed <==> CommittedWhileHeld(actions, i, id)
  {
    if actions == [] {
      assert Run(actions) == NEW_WORLD;
    } else {
      hide Step, Inv, HeldCommit, CommittedWhileHeld;
      var before, action := actions[..|actions| - 1], actions[|actions| - 1];
      assert actions == before + [action];
      RunKeepsInv(before);
      SecureIffCommittedWhileHeld(before, i, id);
      StepSecure(Run(before), action, i, id);
      CommittedWhileHeldSnoc(before, action, i, id);
    }
  }

  // ---------- How long a reservation is held ----------

  /** Some release reached the store while this attempt held the reservation, before any commit. */
  predicate TakenAway(actions: seq<Action>, i: nat, id: string) {
    exists n :: 0 <= n < |actions| && LosesIt(actions[..n], actions[n], i, id)
  }

  predicate LosesIt(before: seq<Action>, action: Action, i: nat, id: string) {
    HeldBy(Run(before), id, i) && Releases(Run(before), action, id) && !CommittedWhileHeld(before, i, id)
  }

  lemma TakenAwaySnoc(before: seq<Action>, action: Action, i: nat, id: string)
    ensures TakenAway(before + [action], i, id) <==> TakenAway(before, i, id) || LosesIt(before, action, i, id)
  {
    hide LosesIt;
    var all := before + [action];
    assert all[..|before|] == before;
    forall m | 0 <= m < |before|
      ensures all[..m] == before[..m] && all[m] == before[m]
    {
    }
    if m :| 0 <= m < |before| && LosesIt(before[..m], before[m], i, id) {
      assert LosesIt(all[..m], all[m], i, id);
    }
    if LosesIt(before, action, i, id) {
      assert LosesIt(all[..|before|], all[|before|], i, id);
    }
  }

  /** Attempt i was told, or should have been, that it made the reservation of this id. */
  predicate Took(s: World, i: nat, id: string) {
    i < |s.attempts| && s.attempts[i].took && IntentId(s.attempts[i]) == id
  }

  lemma HolderTook(s: World, i: nat, id: string)
    requires Inv(s) && HeldBy(s, id, i)
    ensures Took(s, i, id)
  {
    hide WellKept, HasId, RailRight;
    assert TakenRight(s, id);
    SoundOf(s, i);
  }

  /** Taking is the only way to become a holder, and happens once in an attempt's life. */
  lemma StepTook(s: World, action: Action, i: nat, id: string)
    requires Inv(s)
    ensures Took(s, i, id) ==> Took(Step(s, action), i, id) && !(Takes(s, action, id) && action.i == i)
    ensures Took(Step(s, action), i, id) && !Took(s, i, id) ==> Takes(s, action, id) && action.i == i
  {
    hide Step, Inv, ReserveAnswer;
    StepContinues(s, action);
    if Took(s, i, id) {
      SoundOf(s, i);
    } else if Took(Step(s, action), i, id) {
      NewlyTook(s, action, i);
    }
  }

  /** The attempts go on, and none but i can have come to hold a reservation. */
  predicate TookSame(s: World, s': World, i: nat) {
    && |s.attempts| <= |s'.attempts|
    && (forall k :: 0 <= k < |s.attempts| && k != i ==> s'.attempts[k].took == s.attempts[k].took)
    && (forall k :: |s.attempts| <= k < |s'.attempts| ==> !s'.attempts[k].took)
  }

  lemma MovedTookSame(s: World, s': World, i: nat)
    requires Moved(s, s', i)
    ensures TookSame(s, s', i)
  {
  }

  lemma StoreStepsKeepTook(s: World, i: nat, fault: Fault)
    requires i < |s.attempts|
    ensures At(s, i, Committing) ==> StepCommit(s, i, fault).attempts[i].took == s.attempts[i].took
    ensures s.attempts[i].pc.Releasing? ==> StepRelease(s, i, fault, s.attempts[i].pc.answer).attempts[i].took == s.attempts[i].took
  {
    hide AfterCommit, AfterRelease;
  }

  lemma LookUpKeepsTook(s: World, i: nat, known: bool, fault: Fault)
    requires At(s, i, LookingUp) && s.attempts[i].mandate.Some?
    ensures StepLookUp(s, i, known, fault).attempts[i].took == s.attempts[i].took
  {
  }

  lemma ClaimKeepsTook(s: World, i: nat, fault: Fault)
    requires At(s, i, Claiming) && s.attempts[i].mandate.Some?
    ensures StepClaim(s, i, fault).attempts[i].took == s.attempts[i].took
  {
    hide UsesOf, UseOf;
  }

  lemma ReserveTakes(s: World, i: nat, fault: Fault)
    requires At(s, i, Reserving) && !s.attempts[i].took && StepReserve(s, i, fault).attempts[i].took
    ensures Takes(s, Reserve(i, fault), IntentId(s.attempts[i]))
  {
    hide ReserveAnswer, AfterReserve;
  }

  lemma NewlyTook(s: World, action: Action, i: nat)
    requires i < |Step(s, action).attempts| && Step(s, action).attempts[i].took
    requires i < |s.attempts| ==> !s.attempts[i].took
    ensures i < |s.attempts| && Takes(s, action, IntentId(s.attempts[i])) && action.i == i
  {
    hide Moved, Takes, StepReserve, StepLookUp, StepClaim, StepCommit, StepRelease, AfterCommit, AfterRelease, Holds;
    if !action.Begin? && !action.Report? && !action.Reclaim? && action.i < |s.attempts| && Step(s, action) != s {
      StepMoves(s, action);
      MovedTookSame(s, Step(s, action), action.i);
      match action
      case Reserve(k, fault) => ReserveTakes(s, k, fault);
      case LookUp(k, known, fault) => LookUpKeepsTook(s, k, known, fault);
      case ClaimUse(k, fault) => ClaimKeepsTook(s, k, fault);
      case CommitSpend(k, fault) => StoreStepsKeepTook(s, k, fault);
      case ReleaseOurs(k, fault) => StoreStepsKeepTook(s, k, fault);
      case _ =>
    }
  }

  lemma StepHeld(s: World, before: seq<Action>, action: Action, i: nat, id: string)
    requires Inv(s) && s == Run(before)
    requires HeldBy(s, id, i) <==> Took(s, i, id) && !TakenAway(before, i, id)
    ensures var s' := Step(s, action);
      HeldBy(s', id, i) <==> Took(s', i, id) && !TakenAway(before, i, id) && !LosesIt(before, action, i, id)
  {
    hide Step, Inv, Run, HasId, CommittedWhileHeld, TakenAway, Releases, Commits, Took;
    StepEffect(s, action, id);
    StepTook(s, action, i, id);
    SecureIffCommittedWhileHeld(before, i, id);
    NotTakenAway(before, i, id);
    if Takes(s, action, id) {
      TakenIsNew(s, action, id);
      StepKeepsInv(s, action);
      if HeldBy(Step(s, action), id, i) {
        HolderTook(Step(s, action), i, id);
      }
    } else if Releases(s, action, id) && id !in s.book.committed {
      assert Took(Step(s, action), i, id) ==> Took(s, i, id);
    } else {
      assert Took(Step(s, action), i, id) <==> Took(s, i, id);
    }
  }

  lemma NotTakenAway(before: seq<Action>, i: nat, id: string)
    ensures TakenAway(before, i, id) ==> Took(Run(before), i, id)
  {
    hide Run, Inv, CommittedWhileHeld, Releases, HeldBy;
    if n :| 0 <= n < |before| && LosesIt(before[..n], before[n], i, id) {
      assert before[..n] + before[n..] == before;
      RunKeepsInv(before[..n]);
      HolderTook(Run(before[..n]), i, id);
      RunContinues(before[..n], before[n..]);
      assert Same(Run(before[..n]).attempts[i], Run(before).attempts[i]);
    }
  }

  /** A reservation is held by the attempt that made it until a release reaches the store
      before its commit, and no longer. */
  lemma {:induction false} HeldUntilReleased(actions: seq<Action>, i: nat, id: string)
    ensures HeldBy(Run(actions), id, i) <==> Took(Run(actions), i, id) && !TakenAway(actions, i, id)
  {
    if actions == [] {
      assert Run(actions) == NEW_WORLD;
    } else {
      hide Step, Inv, HeldBy, Took, TakenAway, LosesIt;
      var before, action := actions[..|actions| - 1], actions[|actions| - 1];
      assert actions == before + [action];
      RunKeepsInv(before);
      HeldUntilReleased(before, i, id);
      StepHeld(Run(before), before, action, i, id);
      TakenAwaySnoc(before, action, i, id);
    }
  }

  // ---------- What a denied payment leaves behind ----------

  /** Some caller reported the intent as executed while this attempt held its reservation. */
  predicate ReportedWhileHeld(actions: seq<Action>, i: nat, id: string) {
    exists n :: 0 <= n < |actions| && actions[n] == Report(id) && HeldBy(Run(actions[..n]), id, i)
  }

  /** While an attempt that never reached the rail holds the id, only a report commits it:
      another attempt's commit would mean that a mistaken hand release took that one's row. */
  lemma CommitWasReport(actions: seq<Action>, i: nat, id: string, n: nat)
    requires i < |Run(actions).attempts| && !Run(actions).attempts[i].railed
    requires n < |actions| && HeldCommit(Run(actions[..n]), actions[n], i, id)
    ensures actions[n] == Report(id) || MistakenRelease(actions, id)
  {
    hide Run, WellKept, HasId, MistakenRelease;
    var s := Run(actions[..n]);
    assert actions[..n] + actions[n..] == actions;
    RunContinues(actions[..n], actions[n..]);
    if actions[n] != Report(id) {
      RunKeepsInv(actions[..n]);
      SoundOf(s, actions[n].i);
      HolderTook(s, i, id);
      assert Same(s.attempts[i], Run(actions).attempts[i]);
      MistakenIff(actions[..n], id);
      MistakenIff(actions, id);
    }
  }

  /** A payment that never reached the rail was denied or replayed. With no store call failing,
      it leaves a reservation of its own behind exactly when its intent was committed while it
      held it; unless a hand release took a reservation still needed, that is exactly when some
      caller reported the intent as executed meanwhile. */
  lemma DenialLeavesNothing(actions: seq<Action>, i: nat)
    requires var s := Run(actions); i < |s.attempts| && s.attempts[i].pc.Done? && !s.attempts[i].railed
    ensures var s := Run(actions); var a := s.attempts[i];
      && (a.pc.answer.Denied? || a.pc.answer.ReplayedAnswer?)
      && (!a.threw ==> (HeldBy(s, IntentId(a), i) <==> CommittedWhileHeld(actions, i, IntentId(a))))
      && (!a.threw && !MistakenRelease(actions, IntentId(a)) ==>
          (HeldBy(s, IntentId(a), i) <==> ReportedWhileHeld(actions, i, IntentId(a))))
  {
    hide Run, WellKept, HasId, MistakenRelease, Commits;
    RunKeepsInv(actions);
    var id := IntentId(Run(actions).attempts[i]);
    SoundOf(Run(actions), i);
    SecureIffCommittedWhileHeld(actions, i, id);
    if n :| 0 <= n < |actions| && HeldCommit(Run(actions[..n]), actions[n], i, id) {
      CommitWasReport(actions, i, id, n);
    }
    if n :| 0 <= n < |actions| && actions[n] == Report(id) && HeldBy(Run(actions[..n]), id, i) {
      ReportCommits(Run(actions[..n]), id);
      assert HeldCommit(Run(actions[..n]), actions[n], i, id);
    }
  }

  lemma ReportCommits(s: World, id: string)
    ensures Commits(s, Report(id), id)
  {
  }

  /** What a caller can check beforehand: an intent nobody reports as executed, nor releases by
      hand, leaves nothing behind when it is denied. */
  lemma UnreportedDenialLeavesNothing(actions: seq<Action>, i: nat)
    requires var s := Run(actions); i < |s.attempts| && s.attempts[i].pc.Done? && !s.attempts[i].railed && !s.attempts[i].threw
    requires var id := IntentId(Run(actions).attempts[i]); Report(id) !in actions && Reclaim(id) !in actions
    ensures !HeldBy(Run(actions), IntentId(Run(actions).attempts[i]), i)
  {
    hide Run, HeldBy, Needed;
    DenialLeavesNothing(actions, i);
  }

  // ---------- Whether a payment stays counted ----------

  /** Every release of the id that reached the store while this attempt held it came after
      its commit, or after a report of it. */
  predicate ReleasedOnlyAfterCommit(actions: seq<Action>, i: nat, id: string) {
    forall n :: 0 <= n < |actions| && HeldBy(Run(actions[..n]), id, i) && Releases(Run(actions[..n]), actions[n], id)
      ==> CommittedWhileHeld(actions[..n], i, id)
  }

  /** A payment sent to the rail stays counted exactly while every release of its id found it
      committed: one whose own commit failed is at the mercy of a mistaken hand release. */
  lemma PaymentCountedIff(actions: seq<Action>, i: nat)
    requires var s := Run(actions); i < |s.attempts| && s.attempts[i].railed
    ensures var s := Run(actions); var a := s.attempts[i];
      && (HeldBy(s, IntentId(a), i) <==> ReleasedOnlyAfterCommit(actions, i, IntentId(a)))
      && (HeldBy(s, IntentId(a), i) ==> UsableAmount(a.req.amountMinor) && NewRow(a.req) in s.book.rows)
  {
    hide Run, WellKept, HasId, CommittedWhileHeld, Releases;
    var s := Run(actions);
    var id := IntentId(s.attempts[i]);
    RunKeepsInv(actions);
    SoundOf(s, i);
    assert TakenRight(s, id);
    HeldUntilReleased(actions, i, id);
    if TakenAway(actions, i, id) {
      var n :| 0 <= n < |actions| && LosesIt(actions[..n], actions[n], i, id);
    }
    if n :| 0 <= n < |actions| && HeldBy(Run(actions[..n]), id, i) && Releases(Run(actions[..n]), actions[n], id)
              && !CommittedWhileHeld(actions[..n], i, id) {
      assert LosesIt(actions[..n], actions[n], i, id);
    }
  }

  // ---------- Two schedules ----------

  const ONE_UNIT := Request("id", "policy", "USD", [], Finite(1.0), 0, None)

  /** One attempt, with the one reservation it took, not committed yet. */
  predicate Single(s: World, pc: Pc, railed: bool) {
    && |s.attempts| == 1 && s.attempts[0].pc == pc && s.attempts[0].took && !s.attempts[0].threw
    && s.attempts[0].railed == railed && s.attempts[0].fate == Unknown
    && s.attempts[0].req == ONE_UNIT && s.attempts[0].mandate.None? && !s.attempts[0].twoPhase
    && s.book == Book([NewRow(ONE_UNIT)], {})
  }

  const TO_THE_GATE := [Begin(ONE_UNIT, "d", None, false), Decide(0, true), Reserve(0, Fine)]

  lemma RunOfSnoc(before: seq<Action>, action: Action)
    ensures Run(before + [action]) == Step(Run(before), action)
  {
    assert (before + [action])[..|before|] == before;
  }

  lemma RunOfThree(before: seq<Action>, a: Action, b: Action, c: Action)
    ensures Run(before + [a, b, c]) == Step(Step(Step(Run(before), a), b), c)
  {
    hide Step;
    RunOfSnoc(before, a);
    RunOfSnoc(before + [a], b);
    RunOfSnoc(before + [a] + [b], c);
    assert before + [a] + [b] + [c] == before + [a, b, c];
  }

  lemma AtTheGate()
    ensures Single(Run(TO_THE_GATE), FreezeCheck, false)
  {
    RunOfThree([], TO_THE_GATE[0], TO_THE_GATE[1], TO_THE_GATE[2]);
    assert [] + TO_THE_GATE == TO_THE_GATE;
    assert Run([]) == NEW_WORLD;
    FirstSteps();
  }

  lemma FirstSteps()
    ensures Single(Step(Step(Step(NEW_WORLD, TO_THE_GATE[0]), TO_THE_GATE[1]), TO_THE_GATE[2]), FreezeCheck, false)
  {
    assert ReserveAnswer(EMPTY, ONE_UNIT) == Reserved;
  }

  lemma RowIsThere()
    ensures HasId([NewRow(ONE_UNIT)], "id") && Without([NewRow(ONE_UNIT)], "id") == []
  {
    assert [NewRow(ONE_UNIT)][0].id == "id";
    assert [NewRow(ONE_UNIT)][..0] == [];
  }

  /** A payment reported as executed while it ran, then stopped by a freeze, is denied with its
      reservation held. */
  lemma ReportedDenialKeepsItsRow()
    ensures var s := Run(TO_THE_GATE + [Report("id"), ReadFreeze(0, true), ReleaseOurs(0, Fine)]);
      && |s.attempts| == 1 && s.attempts[0].pc == Done(Denied) && !s.attempts[0].threw
      && HasId(s.book.rows, "id")
  {
    hide Run, Step;
    AtTheGate();
    RunOfThree(TO_THE_GATE, Report("id"), ReadFreeze(0, true), ReleaseOurs(0, Fine));
    ReportedThenFrozen(Run(TO_THE_GATE));
  }

  lemma ReportedThenFrozen(s: World)
    requires Single(s, FreezeCheck, false)
    ensures var s' := Step(Step(Step(s, Report("id")), ReadFreeze(0, true)), ReleaseOurs(0, Fine));
      && |s'.attempts| == 1 && s'.attempts[0].pc == Done(Denied) && !s'.attempts[0].threw && HasId(s'.book.rows, "id")
  {
    RowIsThere();
    hide HasId, Without;
  }

  /** A payment that executed and charged, but whose commit the store refused: releasing its id
      by hand, by mistake, un-counts real money. */
  lemma MistakenReleaseForgetsACharge()
    ensures var s := Run(TO_THE_GATE + [ReadFreeze(0, false), Start(0, true), Resolve(0, true)]
                         + [Execute(0, true), CommitSpend(0, Before), Reclaim("id")]);
      && |s.attempts| == 1 && s.attempts[0].pc == Done(Executed) && s.attempts[0].fate == Charged
      && s.book.rows == []
  {
    hide Run, Step;
    AtTheGate();
    var paying := TO_THE_GATE + [ReadFreeze(0, false), Start(0, true), Resolve(0, true)];
    RunOfThree(TO_THE_GATE, ReadFreeze(0, false), Start(0, true), Resolve(0, true));
    RunOfThree(paying, Execute(0, true), CommitSpend(0, Before), Reclaim("id"));
    ChargedThenForgotten(Run(TO_THE_GATE));
  }

  /** One attempt that is being executed, whose money has moved. */
  predicate Paying(s: World) {
    && |s.attempts| == 1 && s.attempts[0].pc.Executing? && s.attempts[0].fate == Charged
    && s.attempts[0].req == ONE_UNIT && s.book == Book([NewRow(ONE_UNIT)], {})
  }

  lemma ChargedThenForgotten(s: World)
    requires Single(s, FreezeCheck, false)
    ensures var paying := Step(Step(Step(s, ReadFreeze(0, false)), Start(0, true)), Resolve(0, true));
      var s' := Step(Step(Step(paying, Execute(0, true)), CommitSpend(0, Before)), Reclaim("id"));
      && |s'.attempts| == 1 && s'.attempts[0].pc == Done(Executed) && s'.attempts[0].fate == Charged && s'.book.rows == []
  {
    Charging(s);
    hide Step, Single;
    Forgetting(Step(Step(Step(s, ReadFreeze(0, false)), Start(0, true)), Resolve(0, true)));
  }

  lemma Charging(s: World)
    requires Single(s, FreezeCheck, false)
    ensures Paying(Step(Step(Step(s, ReadFreeze(0, false)), Start(0, true)), Resolve(0, true)))
  {
  }

  lemma Forgetting(s: World)
    requires Paying(s)
    ensures var s' := Step(Step(Step(s, Execute(0, true)), CommitSpend(0, Before)), Reclaim("id"));
      && |s'.attempts| == 1 && s'.attempts[0].pc == Done(Executed) && s'.attempts[0].fate == Charged && s'.book.rows == []
  {
    RowIsThere();
    hide HasId, Without, NewRow;
  }
}

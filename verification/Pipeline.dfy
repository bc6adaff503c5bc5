/** What gates a payment: it is sent to the rail exactly when every gate was passed, in order, and
  a refusal at any gate stops it for good.
 */
module Pipeline {
  import opened Prelude
  import opened SpendWindow
  import opened SpendBook
  import opened GuardProtocol
  import opened GuardSafety

  /** The gates, in the order a payment meets them; the middle five only under a mandate. */
  datatype Gate = Policy | Budget | KnownMandate | MandateChecks | FreeUse | Ownership | Freeze | Launch

  function Before(g: Gate, mandated: bool): Gate {
    match g
    case Policy => Policy
    case Budget => Policy
    case KnownMandate => Budget
    case MandateChecks => KnownMandate
    case FreeUse => MandateChecks
    case Ownership => FreeUse
    case Freeze => if mandated then Ownership else Budget
    case Launch => Freeze
  }

  function WaitsAt(g: Gate): Pc {
    match g
    case Policy => Deciding
    case Budget => Reserving
    case KnownMandate => LookingUp
    case MandateChecks => Checking
    case FreeUse => Claiming
    case Ownership => Recording
    case Freeze => FreezeCheck
    case Launch => Starting
  }

  /** No row of the book carries the request's id, and every window leaves room for it. */
  predicate BudgetFree(s: World, req: Request) {
    && (forall k :: 0 <= k < |s.book.rows| ==> s.book.rows[k].id != req.reservationId)
    && AllWellFormed(req.windows) && UsableAmount(req.amountMinor)
    && forall k :: 0 <= k < |req.windows| ==> LeavesRoom(s.book.rows, req, req.windows[k])
  }

  predicate UseIsFree(s: World, a: Attempt) {
    a.mandate.Some? && Use(a.mandate.value.id, a.req.reservationId) !in s.claims
  }

  /** The mandate still has a use to give. */
  predicate UseLeft(s: World, a: Attempt) {
    a.mandate.Some? && |set u | u in s.claims && u.mandateId == a.mandate.value.id| < a.mandate.value.maxUses
  }

  /** The action lets attempt i through the gate it is waiting at. */
  predicate Opens(s: World, action: Action, i: nat, g: Gate) {
    && At(s, i, WaitsAt(g))
    && var a := s.attempts[i];
       match g
       case Policy => action == Decide(i, true)
       case Budget => action == Reserve(i, Fine) && BudgetFree(s, a.req)
       case KnownMandate => action == LookUp(i, true, Fine) && UseIsFree(s, a)
       case MandateChecks => action == Check(i, true)
       case FreeUse => action == ClaimUse(i, Fine) && UseIsFree(s, a) && UseLeft(s, a)
       case Ownership => action == Record(i, true) && a.took
       case Freeze => action == ReadFreeze(i, false)
       case Launch => action == Start(i, true)
  }

  predicate Mandated(s: World, i: nat) {
    i < |s.attempts| && s.attempts[i].mandate.Some?
  }

  /** Some action of the schedule opened the gate for attempt i, after another had opened the one
      before it, and so on back to the policy's verdict. */
  predicate Passed(actions: seq<Action>, i: nat, g: Gate)
    decreases |actions|
  {
    actions != [] &&
      var before, last := actions[..|actions| - 1], actions[|actions| - 1];
      || Passed(before, i, g)
      || (Opens(Run(before), last, i, g) && (g.Policy? || Passed(before, i, Before(g, Mandated(Run(before), i)))))
  }

  /** The moment a gate was opened. */
  lemma {:induction false} OpenedAt(actions: seq<Action>, i: nat, g: Gate) returns (n: nat)
    requires Passed(actions, i, g)
    ensures n < |actions| && Opens(Run(actions[..n]), actions[n], i, g)
    ensures g.Policy? || Passed(actions[..n], i, Before(g, Mandated(Run(actions[..n]), i)))
  {
    hide Run, Opens;
    var before := actions[..|actions| - 1];
    if Passed(before, i, g) {
      n := OpenedAt(before, i, g);
      assert before[..n] == actions[..n];
    } else {
      n := |actions| - 1;
    }
  }

  // ---------- An open gate leads on ----------

  function Next(g: Gate, a: Attempt): Pc {
    match g
    case Policy => Reserving
    case Budget => if a.mandate.Some? then LookingUp else FreezeCheck
    case KnownMandate => Checking
    case MandateChecks => Claiming
    case FreeUse => Recording
    case Ownership => FreezeCheck
    case Freeze => Starting
    case Launch => if a.twoPhase then Done(Authorized) else Executing
  }

  lemma BudgetFreeMeans(s: World, req: Request)
    ensures BudgetFree(s, req) <==> ReserveAnswer(s.book, req).Reserved?
  {
    hide ReserveAnswer, LeavesRoom, UsableAmount, WellFormed;
    ReservedIff(s.book, req);
  }

  lemma UseMeans(s: World, a: Attempt)
    requires a.mandate.Some?
    ensures UseIsFree(s, a) <==> UseOf(a) !in s.claims
    ensures UseLeft(s, a) <==> |UsesOf(s.claims, a.mandate.value.id)| < a.mandate.value.maxUses
  {
    assert (set u | u in s.claims && u.mandateId == a.mandate.value.id) == UsesOf(s.claims, a.mandate.value.id);
  }

  /** Whoever is let through a gate waits at the next one; past the last, the payment is on the
      rail, to be executed or handed to its caller. */
  lemma OpenGateLeadsOn(s: World, action: Action, i: nat, g: Gate)
    requires Opens(s, action, i, g)
    ensures var s' := Step(s, action);
      && i < |s'.attempts| && s'.attempts[i].pc == Next(g, s.attempts[i])
      && (g.Budget? ==> s'.attempts[i].took && NewRow(s.attempts[i].req) in s'.book.rows)
      && (g.Launch? ==> s'.rail == s.rail + [i] && s'.attempts[i].railed)
  {
    match g
    case Budget => BudgetLeadsOn(s, action, i);
    case KnownMandate => LookUpLeadsOn(s, action, i);
    case FreeUse => UseLeadsOn(s, action, i);
    case _ =>
  }

  lemma BudgetLeadsOn(s: World, action: Action, i: nat)
    requires Opens(s, action, i, Budget)
    ensures var s' := Step(s, action);
      i < |s'.attempts| && s'.attempts[i].pc == Next(Budget, s.attempts[i]) && s'.attempts[i].took && NewRow(s.attempts[i].req) in s'.book.rows
  {
    var a := s.attempts[i];
    BudgetFreeMeans(s, a.req);
    hide BudgetFree, ReserveAnswer, LeavesRoom;
    ReservedAddsRow(s.book, a.req);
    hide AfterReserve;
    assert NewRow(a.req) in s.book.rows + [NewRow(a.req)];
  }

  lemma LookUpLeadsOn(s: World, action: Action, i: nat)
    requires Opens(s, action, i, KnownMandate)
    ensures var s' := Step(s, action); i < |s'.attempts| && s'.attempts[i].pc == Checking
  {
    UseMeans(s, s.attempts[i]);
  }

  lemma UseLeadsOn(s: World, action: Action, i: nat)
    requires Opens(s, action, i, FreeUse)
    ensures var s' := Step(s, action); i < |s'.attempts| && s'.attempts[i].pc == Recording
  {
    UseMeans(s, s.attempts[i]);
    hide UsesOf, UseLeft, UseIsFree;
  }

  /** Every attempt begins at the first gate. */
  lemma BeginsAtPolicy(s: World, req: Request, digest: string, mandate: Option<Mandate>, twoPhase: bool)
    ensures var s' := Step(s, Begin(req, digest, mandate, twoPhase));
      && |s'.attempts| == |s.attempts| + 1 && At(s', |s.attempts|, Deciding)
      && s'.attempts[|s.attempts|].req == req && s'.attempts[|s.attempts|].mandate == mandate && s'.attempts[|s.attempts|].twoPhase == twoPhase
      && s'.rail == s.rail
  {
  }

  // ---------- On the rail exactly past every gate ----------

  /** What an attempt's place in the pipeline says about the gates behind it. */
  predicate Behind(actions: seq<Action>, i: nat, a: Attempt) {
    && (a.pc.Reserving? ==> Passed(actions, i, Policy))
    && (a.took && OnItsWay(a.pc) ==> Passed(actions, i, Budget))
    && (a.took && a.pc.Checking? ==> Passed(actions, i, KnownMandate))
    && (a.took && a.pc.Claiming? ==> Passed(actions, i, MandateChecks))
    && (a.took && a.pc.Recording? ==> Passed(actions, i, FreeUse))
    && (a.pc.FreezeCheck? ==> a.took && Passed(actions, i, if a.mandate.Some? then Ownership else Budget))
    && (a.pc.Starting? ==> Passed(actions, i, Freeze))
    && (a.railed ==> Passed(actions, i, Launch))
  }

  predicate OnItsWay(pc: Pc) {
    pc.LookingUp? || pc.Checking? || pc.Claiming? || pc.Recording? || pc.FreezeCheck?
  }

  predicate AllBehind(actions: seq<Action>) {
    forall i :: 0 <= i < |Run(actions).attempts| ==> Behind(actions, i, Run(actions).attempts[i])
  }

  lemma PassedStays(before: seq<Action>, action: Action, i: nat, g: Gate)
    requires Passed(before, i, g)
    ensures Passed(before + [action], i, g)
  {
    hide Run, Opens;
    assert (before + [action])[..|before|] == before;
  }

  lemma PassedNow(before: seq<Action>, action: Action, i: nat, g: Gate)
    requires Opens(Run(before), action, i, g)
    requires g.Policy? || Passed(before, i, Before(g, Mandated(Run(before), i)))
    ensures Passed(before + [action], i, g)
  {
    hide Run, Opens;
    assert (before + [action])[..|before|] == before;
  }

  lemma BehindStays(before: seq<Action>, action: Action, i: nat, a: Attempt)
    requires Behind(before, i, a)
    ensures Behind(before + [action], i, a)
  {
    hide Passed;
    forall g | Passed(before, i, g)
      ensures Passed(before + [action], i, g)
    {
      PassedStays(before, action, i, g);
    }
  }

  /** Same place, same reservation, same payment. */
  predicate Stood(a: Attempt, a': Attempt) {
    a'.pc == a.pc && a'.took == a.took && a'.railed == a.railed && a'.mandate == a.mandate
  }

  /** Whatever moves an attempt to a gate opened the one before it. */
  predicate MovedOn(s: World, action: Action, i: nat, a: Attempt, a': Attempt) {
    && a'.mandate == a.mandate
    && (a'.pc.Reserving? ==> Opens(s, action, i, Policy))
    && (a'.pc.LookingUp? && a'.took ==> Opens(s, action, i, Budget))
    && (a'.pc.Checking? ==> Opens(s, action, i, KnownMandate) && a'.took == a.took)
    && (a'.pc.Claiming? ==> Opens(s, action, i, MandateChecks) && a'.took == a.took)
    && (a'.pc.Recording? ==> Opens(s, action, i, FreeUse) && a'.took == a.took)
    && (a'.pc.FreezeCheck? ==> a'.took && ((Opens(s, action, i, Ownership) && a.took) || (Opens(s, action, i, Budget) && a.mandate.None?)))
    && (a'.pc.Starting? ==> Opens(s, action, i, Freeze))
    && (a'.railed && !a.railed ==> Opens(s, action, i, Launch))
  }

  /** The gates that look at nothing but the answer. */
  lemma PlainGates(s: World, action: Action, i: nat)
    ensures Opens(s, action, i, Policy) <==> action == Decide(i, true) && At(s, i, Deciding)
    ensures Opens(s, action, i, MandateChecks) <==> action == Check(i, true) && At(s, i, Checking)
    ensures Opens(s, action, i, Ownership) <==> action == Record(i, true) && At(s, i, Recording) && s.attempts[i].took
    ensures Opens(s, action, i, Freeze) <==> action == ReadFreeze(i, false) && At(s, i, FreezeCheck)
    ensures Opens(s, action, i, Launch) <==> action == Start(i, true) && At(s, i, Starting)
  {
  }

  /** The gates that look at a store. */
  lemma StoreGates(s: World, action: Action, i: nat)
    ensures Opens(s, action, i, Budget) <==>
      action == Reserve(i, Fine) && At(s, i, Reserving) && ReserveAnswer(s.book, s.attempts[i].req).Reserved?
    ensures Opens(s, action, i, KnownMandate) <==>
      action == LookUp(i, true, Fine) && At(s, i, LookingUp) && s.attempts[i].mandate.Some? && UseOf(s.attempts[i]) !in s.claims
    ensures Opens(s, action, i, FreeUse) <==>
      action == ClaimUse(i, Fine) && At(s, i, Claiming) && s.attempts[i].mandate.Some? && UseOf(s.attempts[i]) !in s.claims
      && |UsesOf(s.claims, s.attempts[i].mandate.value.id)| < s.attempts[i].mandate.value.maxUses
  {
    if i < |s.attempts| {
      BudgetFreeMeans(s, s.attempts[i].req);
      if s.attempts[i].mandate.Some? {
        UseMeans(s, s.attempts[i]);
      }
    }
    hide BudgetFree, UsesOf, UseOf, ReserveAnswer;
  }

  lemma ReserveMovesOn(s: World, i: nat, fault: Fault)
    requires At(s, i, Reserving) && !s.attempts[i].took
    ensures MovedOn(s, Reserve(i, fault), i, s.attempts[i], StepReserve(s, i, fault).attempts[i])
  {
    hide Opens, ReserveAnswer, AfterReserve;
    StoreGates(s, Reserve(i, fault), i);
    PlainGates(s, Reserve(i, fault), i);
  }

  lemma LookUpMovesOn(s: World, i: nat, known: bool, fault: Fault)
    requires At(s, i, LookingUp) && s.attempts[i].mandate.Some?
    ensures MovedOn(s, LookUp(i, known, fault), i, s.attempts[i], StepLookUp(s, i, known, fault).attempts[i])
  {
    hide Opens, ReserveAnswer, UsesOf, UseOf;
    StoreGates(s, LookUp(i, known, fault), i);
    PlainGates(s, LookUp(i, known, fault), i);
  }

  lemma ClaimMovesOn(s: World, i: nat, fault: Fault)
    requires At(s, i, Claiming) && s.attempts[i].mandate.Some?
    ensures MovedOn(s, ClaimUse(i, fault), i, s.attempts[i], StepClaim(s, i, fault).attempts[i])
  {
    hide Opens, ReserveAnswer, UsesOf, UseOf;
    StoreGates(s, ClaimUse(i, fault), i);
    PlainGates(s, ClaimUse(i, fault), i);
  }

  lemma StoresMoveOn(s: World, i: nat, fault: Fault)
    requires i < |s.attempts|
    ensures At(s, i, Committing) ==> MovedOn(s, CommitSpend(i, fault), i, s.attempts[i], StepCommit(s, i, fault).attempts[i])
    ensures s.attempts[i].pc.Releasing? ==>
      MovedOn(s, ReleaseOurs(i, fault), i, s.attempts[i], StepRelease(s, i, fault, s.attempts[i].pc.answer).attempts[i])
  {
    hide AfterCommit, AfterRelease, Opens;
  }

  lemma PlainMovesOn(s: World, action: Action, i: nat)
    requires action.Decide? || action.Check? || action.Record? || action.ReadFreeze? || action.Start? || action.Execute? || action.Resolve?
    requires action.i == i < |s.attempts|
    ensures Stood(s.attempts[i], Step(s, action).attempts[i]) || MovedOn(s, action, i, s.attempts[i], Step(s, action).attempts[i])
  {
    hide Opens;
    PlainGates(s, action, i);
  }

  lemma StandsOrMovesOn(s: World, action: Action, i: nat)
    requires Inv(s) && i < |s.attempts|
    ensures i < |Step(s, action).attempts|
    ensures Stood(s.attempts[i], Step(s, action).attempts[i]) || MovedOn(s, action, i, s.attempts[i], Step(s, action).attempts[i])
  {
    hide MovedOn, Opens, Inv, StepReserve, StepLookUp, StepClaim, StepCommit, StepRelease, StepReclaim, AfterCommit;
    SoundOf(s, i);
    StepContinues(s, action);
    if action.Begin? || action.Report? || action.Reclaim? {
      HandsKeepAttempts(s, action);
    } else if action.i != i {
      OthersStand(s, action, i);
    } else {
      match action
      case Reserve(_, fault) =>
        if At(s, i, Reserving) {
          ReserveMovesOn(s, i, fault);
        }
      case LookUp(_, known, fault) =>
        if At(s, i, LookingUp) && s.attempts[i].mandate.Some? {
          LookUpMovesOn(s, i, known, fault);
        }
      case ClaimUse(_, fault) =>
        if At(s, i, Claiming) && s.attempts[i].mandate.Some? {
          ClaimMovesOn(s, i, fault);
        }
      case CommitSpend(_, fault) => StoresMoveOn(s, i, fault);
      case ReleaseOurs(_, fault) => StoresMoveOn(s, i, fault);
      case _ =>
        hide Step;
        PlainMovesOn(s, action, i);
    }
  }

  lemma HandsKeepAttempts(s: World, action: Action)
    requires action.Begin? || action.Report? || action.Reclaim?
    ensures s.attempts <= Step(s, action).attempts
  {
    hide AfterCommit, AfterRelease, Needed;
  }

  lemma OthersStand(s: World, action: Action, i: nat)
    requires !action.Begin? && !action.Report? && !action.Reclaim? && action.i != i < |s.attempts|
    ensures i < |Step(s, action).attempts| && Step(s, action).attempts[i] == s.attempts[i]
  {
    hide Step;
    StepMovesOrStays(s, action);
  }

  lemma StepMovesOrStays(s: World, action: Action)
    requires !action.Begin? && !action.Report? && !action.Reclaim?
    ensures Step(s, action) == s || Moved(s, Step(s, action), action.i)
  {
    hide StepReserve, StepLookUp, StepClaim, StepRecord, StepStart, StepCommit, StepRelease, StepResolve, Moved, Move;
    if action.i < |s.attempts| && Step(s, action) != s {
      StepMoves(s, action);
    }
  }

  lemma BehindStood(before: seq<Action>, action: Action, i: nat, a: Attempt, a': Attempt)
    requires Behind(before, i, a) && Stood(a, a')
    ensures Behind(before + [action], i, a')
  {
    BehindStays(before, action, i, a);
    hide Passed;
  }

  lemma BehindMovedOn(before: seq<Action>, action: Action, i: nat, a: Attempt, a': Attempt)
    requires i < |Run(before).attempts| && a == Run(before).attempts[i] && Behind(before, i, a)
    requires MovedOn(Run(before), action, i, a, a')
    ensures Behind(before + [action], i, a')
  {
    hide Passed, Run, Opens;
    OpensAt(Run(before), action, i);
    BehindStays(before, action, i, a);
    forall g | Opens(Run(before), action, i, g) && (g.Policy? || Passed(before, i, Before(g, Mandated(Run(before), i))))
      ensures Passed(before + [action], i, g)
    {
      PassedNow(before, action, i, g);
    }
    NewlyBehind(before, action, i, a, a', Run(before));
  }

  lemma NewlyBehind(before: seq<Action>, action: Action, i: nat, a: Attempt, a': Attempt, s: World)
    requires i < |s.attempts| && a == s.attempts[i] && Behind(before, i, a) && Behind(before + [action], i, a)
    requires MovedOn(s, action, i, a, a')
    requires forall g :: Opens(s, action, i, g) ==> a.pc == WaitsAt(g)
    requires forall g :: Opens(s, action, i, g) && (g.Policy? || Passed(before, i, Before(g, Mandated(s, i)))) ==> Passed(before + [action], i, g)
    requires Opens(s, action, i, KnownMandate) || Opens(s, action, i, FreeUse) ==> a.mandate.Some?
    ensures Behind(before + [action], i, a')
  {
    hide Passed, Opens;
  }

  lemma OpensAt(s: World, action: Action, i: nat)
    requires i < |s.attempts|
    ensures forall g :: Opens(s, action, i, g) ==> s.attempts[i].pc == WaitsAt(g)
    ensures Opens(s, action, i, KnownMandate) || Opens(s, action, i, FreeUse) ==> s.attempts[i].mandate.Some?
  {
  }

  lemma {:induction false} AlwaysBehind(actions: seq<Action>)
    ensures AllBehind(actions)
  {
    if actions == [] {
      assert Run(actions).attempts == [];
    } else {
      hide Step, Inv, Behind, MovedOn, Stood;
      var before, action := actions[..|actions| - 1], actions[|actions| - 1];
      assert actions == before + [action];
      var s, s' := Run(before), Step(Run(before), action);
      AlwaysBehind(before);
      RunKeepsInv(before);
      forall i | 0 <= i < |s'.attempts|
        ensures Behind(actions, i, s'.attempts[i])
      {
        if i < |s.attempts| {
          StandsOrMovesOn(s, action, i);
          if Stood(s.attempts[i], s'.attempts[i]) {
            BehindStood(before, action, i, s.attempts[i], s'.attempts[i]);
          } else {
            BehindMovedOn(before, action, i, s.attempts[i], s'.attempts[i]);
          }
        } else {
          NewcomerBehind(actions, s, action, i);
        }
      }
    }
  }

  lemma NewcomerBehind(actions: seq<Action>, s: World, action: Action, i: nat)
    requires |s.attempts| <= i < |Step(s, action).attempts|
    ensures Behind(actions, i, Step(s, action).attempts[i])
  {
    StepContinues(s, action);
    BeginsAtPolicy(s, action.req, action.digest, action.mandate, action.twoPhase);
    hide Passed;
  }

  /** A payment is on the rail exactly when every gate was opened for it, one after the other:
      the policy allowed it, its budget was free, under a mandate that was known, valid and had
      a use left, on a reservation of its own, with no freeze, and its start was recorded. */
  lemma RailIffPassed(actions: seq<Action>, i: nat)
    ensures i in Run(actions).rail <==> Passed(actions, i, Launch)
  {
    hide Run, Passed, Inv, Opens;
    if i in Run(actions).rail {
      RunKeepsInv(actions);
      RailIsRailed(Run(actions));
      AlwaysBehind(actions);
      var k :| 0 <= k < |Run(actions).rail| && Run(actions).rail[k] == i;
      assert Behind(actions, i, Run(actions).attempts[i]);
    }
    if Passed(actions, i, Launch) {
      var n := OpenedAt(actions, i, Launch);
      OpenGateLeadsOn(Run(actions[..n]), actions[n], i, Launch);
      assert actions[..n + 1] == actions[..n] + [actions[n]];
      RunOfOneMore(actions[..n], actions[n]);
      RunContinues(actions[..n + 1], actions[n + 1..]);
      assert actions[..n + 1] + actions[n + 1..] == actions;
      assert Run(actions[..n + 1]).rail[|Run(actions[..n]).rail|] == i;
    }
  }

  lemma RunOfOneMore(before: seq<Action>, action: Action)
    ensures Run(before + [action]) == Step(Run(before), action)
  {
    hide Step;
    assert (before + [action])[..|before|] == before;
  }

  // ---------- A refusal is final ----------

  /** The action answers attempt i at the gate it waits at, and does not let it through for good:
      a denial, a failed store call, or a finding that the payment was made or claimed before. */
  predicate Refuses(s: World, action: Action, i: nat) {
    && i < |s.attempts|
    && var a := s.attempts[i];
       match a.pc
       case Deciding => action == Decide(i, false)
       case Reserving => action.Reserve? && action.i == i
         && (!action.fault.Fine? || (!BudgetFree(s, a.req) && !(HasId(s.book.rows, a.req.reservationId) && a.mandate.Some?)))
       case LookingUp => action.LookUp? && action.i == i && a.mandate.Some? && !Opens(s, action, i, KnownMandate)
       case Checking => action == Check(i, false)
       case Claiming => action.ClaimUse? && action.i == i && a.mandate.Some? && !Opens(s, action, i, FreeUse)
       case Recording => action.Record? && action.i == i && !Opens(s, action, i, Ownership)
       case FreezeCheck => action == ReadFreeze(i, true)
       case Starting => action == Start(i, false)
       case _ => false
  }

  /** The answer is a replay: without a mandate, of an id that has a row; under one, of a claimed
      use with the same digest. Any other refusal is a denial. */
  predicate IsReplay(s: World, action: Action, i: nat)
    requires i < |s.attempts|
  {
    var a := s.attempts[i];
    match a.pc
    case Reserving => action == Reserve(i, Fine) && a.mandate.None? && HasId(s.book.rows, a.req.reservationId)
    case LookingUp => action == LookUp(i, true, Fine) && a.mandate.Some?
      && UseOf(a) in s.claims && s.claims[UseOf(a)].digest == a.digest
    case Claiming => action == ClaimUse(i, Fine) && a.mandate.Some?
      && UseOf(a) in s.claims && s.claims[UseOf(a)].digest == a.digest
    case _ => false
  }

  /** Stopped: done or giving back what it took, with this answer, and never sent. */
  predicate Stopped(a: Attempt, answer: Answer) {
    !a.railed && (a.pc == Done(answer) || a.pc == Releasing(answer))
  }

  lemma AnswerKinds(s: World, req: Request)
    ensures ReserveAnswer(s.book, req).Reserved? <==> BudgetFree(s, req)
    ensures ReserveAnswer(s.book, req).Replayed? <==> HasId(s.book.rows, req.reservationId)
  {
    BudgetFreeMeans(s, req);
    hide BudgetFree;
  }

  lemma ReserveRefusalStops(s: World, action: Action, i: nat)
    requires At(s, i, Reserving) && !s.attempts[i].railed && Refuses(s, action, i)
    ensures Stopped(Step(s, action).attempts[i], if IsReplay(s, action, i) then ReplayedAnswer else Denied)
  {
    AnswerKinds(s, s.attempts[i].req);
    hide BudgetFree, ReserveAnswer, AfterReserve, HasId;
  }

  lemma LookUpRefusalStops(s: World, action: Action, i: nat)
    requires At(s, i, LookingUp) && !s.attempts[i].railed && Refuses(s, action, i)
    ensures Stopped(Step(s, action).attempts[i], if IsReplay(s, action, i) then ReplayedAnswer else Denied)
  {
    StoreGates(s, action, i);
    hide Opens, ReserveAnswer, UseOf, UsesOf;
  }

  lemma ClaimRefusalStops(s: World, action: Action, i: nat)
    requires At(s, i, Claiming) && !s.attempts[i].railed && Refuses(s, action, i)
    ensures Stopped(Step(s, action).attempts[i], if IsReplay(s, action, i) then ReplayedAnswer else Denied)
  {
    StoreGates(s, action, i);
    hide Opens, ReserveAnswer, UseOf, UsesOf;
  }

  lemma PlainRefusalStops(s: World, action: Action, i: nat)
    requires i < |s.attempts| && !s.attempts[i].railed && Refuses(s, action, i)
    requires var pc := s.attempts[i].pc; pc.Deciding? || pc.Checking? || pc.Recording? || pc.FreezeCheck? || pc.Starting?
    ensures Stopped(Step(s, action).attempts[i], Denied)
  {
    PlainGates(s, action, i);
    hide Opens;
  }

  lemma RefusalStops(s: World, action: Action, i: nat)
    requires Inv(s) && Refuses(s, action, i)
    ensures i < |Step(s, action).attempts|
    ensures Stopped(Step(s, action).attempts[i], if IsReplay(s, action, i) then ReplayedAnswer else Denied)
  {
    hide Inv, Step, Stopped, UseOf;
    StepContinues(s, action);
    SoundOf(s, i);
    match s.attempts[i].pc
    case Reserving => ReserveRefusalStops(s, action, i);
    case LookingUp => LookUpRefusalStops(s, action, i);
    case Claiming => ClaimRefusalStops(s, action, i);
    case _ => PlainRefusalStops(s, action, i);
  }

  lemma StepKeepsStopped(s: World, action: Action, i: nat, answer: Answer)
    requires i < |s.attempts| && Stopped(s.attempts[i], answer)
    ensures i < |Step(s, action).attempts| && Stopped(Step(s, action).attempts[i], answer)
  {
    hide Stopped;
    if action.Begin? || action.Report? || action.Reclaim? {
      hide Step;
      HandsKeepAttempts(s, action);
    } else if action.i != i {
      hide Step;
      OthersStand(s, action, i);
    } else {
      OwnStepKeepsStopped(s, action, i, answer);
    }
  }

  lemma OwnStepKeepsStopped(s: World, action: Action, i: nat, answer: Answer)
    requires i < |s.attempts| && Stopped(s.attempts[i], answer)
    requires !action.Begin? && !action.Report? && !action.Reclaim? && action.i == i
    ensures i < |Step(s, action).attempts| && Stopped(Step(s, action).attempts[i], answer)
  {
    hide AfterRelease;
  }

  lemma {:induction false} StoppedForGood(actions: seq<Action>, more: seq<Action>, i: nat, answer: Answer)
    requires i < |Run(actions).attempts| && Stopped(Run(actions).attempts[i], answer)
    ensures i < |Run(actions + more).attempts| && Stopped(Run(actions + more).attempts[i], answer)
  {
    hide Step, Stopped;
    if more == [] {
      assert actions + more == actions;
    } else {
      var n := |more| - 1;
      assert actions + more == actions + more[..n] + [more[n]];
      StoppedForGood(actions, more[..n], i, answer);
      RunOfOneMore(actions + more[..n], more[n]);
      StepKeepsStopped(Run(actions + more[..n]), more[n], i, answer);
    }
  }

  /** A refusal at any gate stops the payment for good: it is never sent to the rail, whatever
      happens later, and when it is finished its answer is a denial, or a replay if it was found
      made or claimed before. */
  lemma RefusedIsNeverSent(actions: seq<Action>, n: nat, i: nat)
    requires n < |actions| && Refuses(Run(actions[..n]), actions[n], i)
    ensures i !in Run(actions).rail
    ensures i < |Run(actions).attempts|
    ensures Stopped(Run(actions).attempts[i], if IsReplay(Run(actions[..n]), actions[n], i) then ReplayedAnswer else Denied)
  {
    hide Run, Inv, Refuses, IsReplay, Step;
    var s := Run(actions[..n]);
    RunKeepsInv(actions[..n]);
    RefusesSomeone(s, actions[n], i);
    RefusalStops(s, actions[n], i);
    assert actions[..n + 1] == actions[..n] + [actions[n]];
    RunOfOneMore(actions[..n], actions[n]);
    StoppedForGood(actions[..n + 1], actions[n + 1..], i, if IsReplay(s, actions[n], i) then ReplayedAnswer else Denied);
    assert actions[..n + 1] + actions[n + 1..] == actions;
    RunKeepsInv(actions);
    RailIsRailed(Run(actions));
  }

  lemma RefusesSomeone(s: World, action: Action, i: nat)
    requires Refuses(s, action, i)
    ensures i < |s.attempts|
  {
  }

  // ---------- After the rail ----------

  /** What the executor's return, and the commit, make of a payment on the rail. */
  lemma ExecutionEnds(s: World, i: nat, ok: bool, fault: Fault)
    ensures At(s, i, Executing) ==> Step(s, Execute(i, ok)).attempts[i].pc == if ok then Committing else Done(Failed)
    ensures At(s, i, Committing) ==>
      var s' := Step(s, CommitSpend(i, fault));
      && s'.attempts[i].pc == Done(Executed)
      && (!fault.Before? && HasId(s.book.rows, s.attempts[i].req.reservationId) ==> s.attempts[i].req.reservationId in s'.book.committed)
    ensures i < |s.attempts| && s.attempts[i].pc.Releasing? ==> Step(s, ReleaseOurs(i, fault)).attempts[i].pc == Done(s.attempts[i].pc.answer)
  {
    hide HasId, AfterRelease;
  }
}

/** The guard's payment pipeline as a protocol: any number of attempts, in any number of
  processes, share one spend limiter and one consume registry. Each await-to-await stretch
  is one step; verdicts, freezes and store failures are chosen by the schedule.
 */
module GuardProtocol {
  import opened Prelude
  import opened SpendWindow
  import opened SpendBook

  datatype Mandate = Mandate(id: string, maxUses: nat)

  /** The consume registry is keyed on (mandate, intent id), the limiter on the intent id alone. */
  datatype Use = Use(mandateId: string, intentId: string)

  datatype Claim = Claim(digest: string, winner: nat)

  datatype Answer = Denied | ReplayedAnswer | Failed | Executed | Authorized

  datatype Pc =
    | Deciding
    | Reserving
    | LookingUp
    | Checking
    | Claiming
    | Recording
    | FreezeCheck
    | Starting
    | Executing
    | Committing
    | Releasing(answer: Answer)
    | Done(answer: Answer)

  /** What became of the money once the rail was asked: a timeout leaves it unknown. */
  datatype Fate = Unknown | Charged | Uncharged

  /** One call of `execute` or `authorize`. `took` says it was told that it made a new
      reservation, or made one without learning of it; `railed` that its executor was invoked,
      or its payment handed to the caller; `threw` that some store call failed. */
  datatype Attempt = Attempt(req: Request, digest: string, mandate: Option<Mandate>, twoPhase: bool,
                             pc: Pc, took: bool, claimed: bool, railed: bool, threw: bool, fate: Fate)

  /** `takenBy`, `reported`, `reclaimed` and `mistaken` are history: who made each reservation,
      which intent ids some caller reported as executed, which some caller released by hand, and
      for which of these that took a reservation still needed. */
  datatype World = World(book: Book, claims: map<Use, Claim>, attempts: seq<Attempt>, rail: seq<nat>,
                         takenBy: map<string, nat>, reported: set<string>, reclaimed: set<string>, mistaken: set<string>)

  const NEW_WORLD := World(EMPTY, map[], [], [], map[], {}, {}, {})

  /** How a store call ends: normally, or by throwing before or after taking effect. */
  datatype Fault = Fine | Before | After

  datatype Action =
    | Begin(req: Request, digest: string, mandate: Option<Mandate>, twoPhase: bool)
    | Decide(i: nat, allowed: bool)
    | Reserve(i: nat, fault: Fault)
    | LookUp(i: nat, known: bool, fault: Fault)
    | Check(i: nat, ok: bool)
    | ClaimUse(i: nat, fault: Fault)
    | Record(i: nat, ok: bool)
    | ReadFreeze(i: nat, frozen: bool)
    | Start(i: nat, ok: bool)
    | Execute(i: nat, ok: bool)
    | CommitSpend(i: nat, fault: Fault)
    | ReleaseOurs(i: nat, fault: Fault)
    | Resolve(i: nat, charged: bool)
    | Report(intentId: string)
    | Reclaim(intentId: string)

  function IntentId(a: Attempt): string {
    a.req.reservationId
  }

  function UseOf(a: Attempt): Use
    requires a.mandate.Some?
  {
    Use(a.mandate.value.id, IntentId(a))
  }

  function UsesOf(claims: map<Use, Claim>, mandateId: string): set<Use> {
    set u | u in claims && u.mandateId == mandateId
  }

  predicate At(s: World, i: nat, pc: Pc) {
    i < |s.attempts| && s.attempts[i].pc == pc
  }

  function Move(s: World, i: nat, a: Attempt): World
    requires i < |s.attempts|
  {
    s.(attempts := s.attempts[i := a])
  }

  /** An exception out of the pipeline is answered as a denial; nothing is released. */
  function Throw(s: World, i: nat): World
    requires i < |s.attempts|
  {
    Move(s, i, s.attempts[i].(pc := Done(Denied), threw := true))
  }

  // ---------- The steps ----------

  /** Where the limiter's answer sends an attempt. */
  function AfterAnswer(a: Attempt, answer: ReserveResult, fault: Fault): Attempt {
    match fault
    case Before => a.(pc := Done(Denied), threw := true)
    case After => a.(pc := Done(Denied), threw := true, took := a.took || answer.Reserved?)
    case Fine =>
      match answer
      case Refused(_) => a.(pc := Done(Denied))
      case Replayed(_) => a.(pc := if a.mandate.Some? then LookingUp else Done(ReplayedAnswer))
      case Reserved => a.(pc := if a.mandate.Some? then LookingUp else FreezeCheck, took := true)
  }

  function StepReserve(s: World, i: nat, fault: Fault): World
    requires At(s, i, Reserving)
  {
    var a := s.attempts[i];
    var answer := ReserveAnswer(s.book, a.req);
    var taken := if answer.Reserved? && !fault.Before?
      then s.(book := AfterReserve(s.book, a.req), takenBy := s.takenBy[IntentId(a) := i]) else s;
    Move(taken, i, AfterAnswer(a, answer, fault))
  }

  /** A prior claim decides: the same payment is replayed, a different one denied. */
  function AfterPrior(s: World, i: nat, prior: Claim): World
    requires i < |s.attempts|
  {
    var a := s.attempts[i];
    Move(s, i, a.(pc := Releasing(if prior.digest == a.digest then ReplayedAnswer else Denied)))
  }

  function StepLookUp(s: World, i: nat, known: bool, fault: Fault): World
    requires At(s, i, LookingUp) && s.attempts[i].mandate.Some?
  {
    var a := s.attempts[i];
    if !fault.Fine? then Throw(s, i)
    else if !known then Move(s, i, a.(pc := Releasing(Denied)))
    else if UseOf(a) in s.claims then AfterPrior(s, i, s.claims[UseOf(a)])
    else Move(s, i, a.(pc := Checking))
  }

  /** Where the registry's answer sends an attempt: a prior claim, no use left, or a use won. */
  function AfterClaiming(a: Attempt, prior: Option<Claim>, full: bool, fault: Fault): Attempt {
    var wins := !fault.Before? && prior.None? && !full;
    if !fault.Fine? then a.(pc := Done(Denied), threw := true, claimed := a.claimed || wins)
    else if prior.Some? then a.(pc := Releasing(if prior.value.digest == a.digest then ReplayedAnswer else Denied))
    else if full then a.(pc := Releasing(Denied))
    else a.(pc := Recording, claimed := true)
  }

  /** The store's atomic claim: duplicate check, budget check and insert. */
  function StepClaim(s: World, i: nat, fault: Fault): World
    requires At(s, i, Claiming) && s.attempts[i].mandate.Some?
  {
    var a := s.attempts[i];
    var use, full := UseOf(a), |UsesOf(s.claims, a.mandate.value.id)| >= a.mandate.value.maxUses;
    var prior := if use in s.claims then Some(s.claims[use]) else None;
    var won := if !fault.Before? && prior.None? && !full then s.(claims := s.claims[use := Claim(a.digest, i)]) else s;
    Move(won, i, AfterClaiming(a, prior, full, fault))
  }

  /** A fresh use on someone else's reservation is money no window counted: denied. */
  function StepRecord(s: World, i: nat, ok: bool): World
    requires At(s, i, Recording)
  {
    var a := s.attempts[i];
    if !ok then Throw(s, i)
    else Move(s, i, a.(pc := if a.took then FreezeCheck else Done(Denied)))
  }

  /** `authorize` hands the payment to its caller here; `execute` goes on to run it. */
  function StepStart(s: World, i: nat, ok: bool): World
    requires At(s, i, Starting)
  {
    var a := s.attempts[i];
    if !ok then Throw(s, i)
    else Move(s.(rail := s.rail + [i]), i, a.(pc := if a.twoPhase then Done(Authorized) else Executing, railed := true))
  }

  function StepCommit(s: World, i: nat, fault: Fault): World
    requires At(s, i, Committing)
  {
    var a := s.attempts[i];
    var committed := if fault.Before? then s else s.(book := AfterCommit(s.book, IntentId(a)));
    Move(committed, i, a.(pc := Done(Executed), threw := a.threw || !fault.Fine?))
  }

  function ReleasedWorld(s: World, id: string): World {
    if id in s.book.committed then s
    else s.(book := AfterRelease(s.book, id), takenBy := s.takenBy - {id})
  }

  function StepRelease(s: World, i: nat, fault: Fault, answer: Answer): World
    requires At(s, i, Releasing(answer))
  {
    var a := s.attempts[i];
    if !a.took then Move(s, i, a.(pc := Done(answer)))
    else
      var released := if fault.Before? then s else ReleasedWorld(s, IntentId(a));
      Move(released, i, a.(pc := Done(answer), threw := a.threw || !fault.Fine?))
  }

  /** The money moves, or provably will not: at any time after the rail was asked, once. */
  function StepResolve(s: World, i: nat, charged: bool): World
    requires i < |s.attempts|
  {
    Move(s, i, s.attempts[i].(fate := if charged then Charged else Uncharged))
  }

  /** A reservation still needed: its attempt is running, or its payment may have moved money. */
  predicate Holds(a: Attempt) {
    a.took && (!a.pc.Done? || (a.railed && !a.fate.Uncharged?))
  }

  /** Somebody still needs this reservation: `releaseSpend` trusts its caller that nobody does. */
  predicate Needed(s: World, id: string) {
    id in s.takenBy && s.takenBy[id] < |s.attempts| && Holds(s.attempts[s.takenBy[id]])
  }

  /** `releaseSpend`, of any id at any time: whatever is not committed goes. */
  function StepReclaim(s: World, id: string): World {
    if id in s.book.committed then s
    else ReleasedWorld(s.(reclaimed := s.reclaimed + {id}, mistaken := s.mistaken + if Needed(s, id) then {id} else {}), id)
  }

  /** One step of the schedule; an action that is not enabled changes nothing. */
  function Step(s: World, action: Action): World {
    match action
    case Begin(req, digest, mandate, twoPhase) =>
      s.(attempts := s.attempts + [Attempt(req, digest, mandate, twoPhase, Deciding, false, false, false, false, Unknown)])
    case Decide(i, allowed) =>
      if At(s, i, Deciding) then Move(s, i, s.attempts[i].(pc := if allowed then Reserving else Done(Denied))) else s
    case Reserve(i, fault) => if At(s, i, Reserving) then StepReserve(s, i, fault) else s
    case LookUp(i, known, fault) =>
      if At(s, i, LookingUp) && s.attempts[i].mandate.Some? then StepLookUp(s, i, known, fault) else s
    case Check(i, ok) =>
      if At(s, i, Checking) then Move(s, i, s.attempts[i].(pc := if ok then Claiming else Releasing(Denied))) else s
    case ClaimUse(i, fault) =>
      if At(s, i, Claiming) && s.attempts[i].mandate.Some? then StepClaim(s, i, fault) else s
    case Record(i, ok) => if At(s, i, Recording) then StepRecord(s, i, ok) else s
    case ReadFreeze(i, frozen) =>
      if At(s, i, FreezeCheck) then Move(s, i, s.attempts[i].(pc := if frozen then Releasing(Denied) else Starting)) else s
    case Start(i, ok) => if At(s, i, Starting) then StepStart(s, i, ok) else s
    case Execute(i, ok) =>
      if At(s, i, Executing) then Move(s, i, s.attempts[i].(pc := if ok then Committing else Done(Failed))) else s
    case CommitSpend(i, fault) => if At(s, i, Committing) then StepCommit(s, i, fault) else s
    case ReleaseOurs(i, fault) =>
      if i < |s.attempts| && s.attempts[i].pc.Releasing? then StepRelease(s, i, fault, s.attempts[i].pc.answer) else s
    case Resolve(i, charged) =>
      if i < |s.attempts| && s.attempts[i].railed && s.attempts[i].fate.Unknown? then StepResolve(s, i, charged) else s
    case Report(id) => s.(book := AfterCommit(s.book, id), reported := s.reported + {id})
    case Reclaim(id) => StepReclaim(s, id)
  }

  function Run(actions: seq<Action>): World {
    if actions == [] then NEW_WORLD else Step(Run(actions[..|actions| - 1]), actions[|actions| - 1])
  }

  // ---------- The invariant ----------

  predicate Owns(s: World, i: nat, a: Attempt) {
    && UsableAmount(a.req.amountMinor)
    && IntentId(a) in s.takenBy && s.takenBy[IntentId(a)] == i
    && NewRow(a.req) in s.book.rows
  }

  /** Past the last gate: nothing but a freeze or a failed append can still stop it. */
  predicate PastGate(a: Attempt) {
    a.pc.FreezeCheck? || a.pc.Starting? || a.pc.Executing? || a.pc.Committing? || a.railed
  }

  predicate HasClaim(s: World, i: nat, a: Attempt) {
    a.mandate.Some? && UseOf(a) in s.claims && s.claims[UseOf(a)].winner == i
  }

  /** A denial or replay with no failed store call leaves nothing of its own behind, unless
      some caller had this very intent committed as executed while it ran. */
  predicate LeavesNothing(s: World, i: nat, a: Attempt) {
    a.pc.Done? && !a.railed && !a.threw ==>
      IntentId(a) in s.takenBy && s.takenBy[IntentId(a)] == i ==> IntentId(a) in s.book.committed
  }

  /** Its reservation was released by hand, with proof that no money moved. */
  predicate GivenUp(s: World, a: Attempt) {
    a.railed && a.pc.Done? && a.fate.Uncharged? && IntentId(a) in s.reclaimed
  }

  predicate Sound(s: World, i: nat, a: Attempt) {
    && (a.took && (a.railed || !a.pc.Done?) ==> Owns(s, i, a) || GivenUp(s, a) || IntentId(a) in s.mistaken)
    && (PastGate(a) ==> a.took && (a.mandate.Some? ==> a.claimed))
    && (a.claimed ==> HasClaim(s, i, a))
    && (a.pc.Recording? ==> a.claimed)
    && (IntentId(a) in s.takenBy && s.takenBy[IntentId(a)] == i ==> a.took)
    && (a.pc.Deciding? || a.pc.Reserving? ==> !a.took && !a.claimed && !a.railed)
    && (!a.railed ==> a.fate.Unknown?)
    && (a.railed ==> a.pc.Executing? || a.pc.Committing? || a.pc.Done?)
    && (!a.railed && a.pc.Done? ==> a.pc.answer.Denied? || a.pc.answer.ReplayedAnswer?)
    && (a.pc.Releasing? ==> a.pc.answer.Denied? || a.pc.answer.ReplayedAnswer?)
    && (a.pc.Executing? || a.pc.Committing? ==> a.railed)
    && LeavesNothing(s, i, a)
  }

  predicate TakenRight(s: World, id: string) {
    id in s.takenBy ==>
      && s.takenBy[id] < |s.attempts|
      && IntentId(s.attempts[s.takenBy[id]]) == id
      && Owns(s, s.takenBy[id], s.attempts[s.takenBy[id]])
      && (id in s.book.committed ==> id in s.reported || s.attempts[s.takenBy[id]].railed || id in s.mistaken)
  }

  predicate RailRight(s: World) {
    && (forall k :: 0 <= k < |s.rail| ==> s.rail[k] < |s.attempts| && s.attempts[s.rail[k]].railed)
    && (forall k, l :: 0 <= k < l < |s.rail| ==> s.rail[k] != s.rail[l])
  }

  ghost predicate Inv(s: World) {
    && WellKept(s.book)
    && (forall id :: id in s.takenBy <==> HasId(s.book.rows, id))
    && (forall id :: TakenRight(s, id))
    && (forall i :: 0 <= i < |s.attempts| ==> Sound(s, i, s.attempts[i]))
    && RailRight(s)
  }

  // ---------- Every step keeps it, one kind of change at a time ----------

  /** Attempt i moves; the stores stay as they are. */
  lemma MoveKeeps(s: World, i: nat, a: Attempt)
    requires Inv(s) && i < |s.attempts| && Sound(s, i, a)
    requires a.req == s.attempts[i].req && (s.attempts[i].railed ==> a.railed)
    ensures Inv(Move(s, i, a))
  {
    hide WellKept, HasId, IntentId;
    var s' := Move(s, i, a);
    forall id
      ensures TakenRight(s', id)
    {
      assert TakenRight(s, id);
      SameIntent(a, s.attempts[i]);
    }
    forall j | 0 <= j < |s'.attempts|
      ensures Sound(s', j, s'.attempts[j])
    {
      SoundInSameStores(s, s', j, s'.attempts[j]);
    }
  }

  lemma SameIntent(a: Attempt, b: Attempt)
    requires a.req == b.req
    ensures IntentId(a) == IntentId(b)
  {
  }

  lemma SoundInSameStores(s: World, s': World, j: nat, a: Attempt)
    requires s'.book.rows == s.book.rows && s.book.committed <= s'.book.committed
    requires s'.claims == s.claims && s'.takenBy == s.takenBy
    requires s.reclaimed <= s'.reclaimed && s.mistaken <= s'.mistaken
    requires Sound(s, j, a)
    ensures Sound(s', j, a)
  {
  }

  /** Attempt i takes a reservation. */
  function Taken(s: World, i: nat, a: Attempt): World
    requires i < |s.attempts|
  {
    Move(s.(book := AfterReserve(s.book, a.req), takenBy := s.takenBy[IntentId(a) := i]), i, a)
  }

  lemma TakeKeeps(s: World, i: nat, a: Attempt)
    requires Inv(s) && i < |s.attempts| && ReserveAnswer(s.book, a.req).Reserved?
    requires a.req == s.attempts[i].req && (s.attempts[i].railed ==> a.railed)
    requires Sound(Taken(s, i, a), i, a)
    ensures Inv(Taken(s, i, a))
  {
    hide WellKept, HasId, Sound;
    var s' := Taken(s, i, a);
    TakeIds(s, a.req);
    ApplyKeeps(s.book, DoReserve(a.req));
    forall id
      ensures TakenRight(s', id)
    {
      assert TakenRight(s, id);
      UncommittedWhenNew(s, IntentId(a));
    }
    forall j | 0 <= j < |s'.attempts| && j != i
      ensures Sound(s', j, s'.attempts[j])
    {
      SoundAfterTake(s, i, a, j);
    }
  }

  lemma UncommittedWhenNew(s: World, id: string)
    requires WellKept(s.book) && !HasId(s.book.rows, id)
    ensures id !in s.book.committed
  {
  }

  lemma TakeIds(s: World, req: Request)
    requires Inv(s) && ReserveAnswer(s.book, req).Reserved?
    ensures forall id :: HasId(AfterReserve(s.book, req).rows, id) <==> id in s.takenBy || id == req.reservationId
    ensures req.reservationId !in s.takenBy
  {
    hide Sound, TakenRight, RailRight, WellKept, InScope, Verdict;
    var rows := AfterReserve(s.book, req).rows;
    forall id
      ensures HasId(rows, id) <==> HasId(s.book.rows, id) || id == req.reservationId
    {
      if HasId(s.book.rows, id) {
        var k :| 0 <= k < |s.book.rows| && s.book.rows[k].id == id;
        assert rows[k].id == id;
      }
      assert rows[|s.book.rows|].id == req.reservationId;
    }
  }

  lemma SoundAfterTake(s: World, i: nat, a: Attempt, j: nat)
    requires Inv(s) && i < |s.attempts| && j < |s.attempts| && i != j
    requires ReserveAnswer(s.book, a.req).Reserved? && IntentId(a) !in s.takenBy
    ensures Sound(Taken(s, i, a), j, s.attempts[j])
  {
    hide WellKept, HasId, ReserveAnswer, AfterReserve, TakenRight, RailRight;
    assert Sound(s, j, s.attempts[j]);
    ReservedAddsRow(s.book, a.req);
  }

  lemma ReservedAddsRow(book: Book, req: Request)
    requires ReserveAnswer(book, req).Reserved?
    ensures UsableAmount(req.amountMinor)
    ensures AfterReserve(book, req) == book.(rows := book.rows + [NewRow(req)])
  {
    hide Verdict, InScope, HasId;
    assert VerdictIn(book, req).None?;
  }

  /** Attempt i wins a claim. */
  lemma ClaimKeeps(s: World, i: nat, a: Attempt)
    requires Inv(s) && i < |s.attempts| && a.mandate.Some? && UseOf(a) !in s.claims
    requires a.req == s.attempts[i].req && (s.attempts[i].railed ==> a.railed)
    requires var won := s.(claims := s.claims[UseOf(a) := Claim(a.digest, i)]); Sound(won, i, a)
    ensures Inv(Move(s.(claims := s.claims[UseOf(a) := Claim(a.digest, i)]), i, a))
  {
    hide WellKept, HasId, RailRight, TakenRight;
    var won := s.(claims := s.claims[UseOf(a) := Claim(a.digest, i)]);
    forall id
      ensures TakenRight(won, id)
    {
      TakenSame(s, won, id);
    }
    forall j | 0 <= j < |won.attempts|
      ensures Sound(won, j, won.attempts[j])
    {
      assert Sound(s, j, s.attempts[j]);
    }
    RailSame(s, won);
    MoveKeeps(won, i, a);
  }

  lemma TakenSame(s: World, s': World, id: string)
    requires TakenRight(s, id)
    requires s'.book == s.book && s'.takenBy == s.takenBy && s'.attempts == s.attempts && s'.reported == s.reported
    requires s'.mistaken == s.mistaken
    ensures TakenRight(s', id)
  {
  }

  lemma RailSame(s: World, s': World)
    requires RailRight(s) && s'.rail == s.rail && s'.attempts == s.attempts
    ensures RailRight(s')
  {
  }

  /** Attempt i reaches the rail. */
  lemma RailKeeps(s: World, i: nat, a: Attempt)
    requires Inv(s) && i < |s.attempts| && !s.attempts[i].railed && a.railed
    requires a.req == s.attempts[i].req && Sound(s, i, a)
    ensures Inv(Move(s.(rail := s.rail + [i]), i, a))
  {
    MoveKeeps(s, i, a);
    var s' := Move(s.(rail := s.rail + [i]), i, a);
    hide WellKept, HasId, RailRight;
    forall id
      ensures TakenRight(s', id)
    {
      assert TakenRight(Move(s, i, a), id);
    }
    forall j | 0 <= j < |s'.attempts|
      ensures Sound(s', j, s'.attempts[j])
    {
      assert Sound(Move(s, i, a), j, s'.attempts[j]);
    }
  }

  /** Someone commits a reservation. */
  lemma CommitKeeps(s: World, id: string, reported: set<string>)
    requires Inv(s) && s.reported <= reported
    requires id in reported || id in s.mistaken
      || (id in s.takenBy && s.takenBy[id] < |s.attempts| && s.attempts[s.takenBy[id]].railed)
    ensures Inv(s.(book := AfterCommit(s.book, id), reported := reported))
  {
    hide WellKept, HasId, Sound, RailRight;
    var s' := s.(book := AfterCommit(s.book, id), reported := reported);
    ApplyKeeps(s.book, DoCommit(id));
    forall other
      ensures TakenRight(s', other)
    {
      assert TakenRight(s, other);
    }
    forall j | 0 <= j < |s'.attempts|
      ensures Sound(s', j, s'.attempts[j])
    {
      SoundInSameStores(s, s', j, s.attempts[j]);
    }
    RailSame(s, s');
  }

  /** Noting that an id was released by hand, or by mistake, changes nothing else. */
  lemma NoteKeeps(s: World, reclaimed: set<string>, mistaken: set<string>)
    requires Inv(s) && s.reclaimed <= reclaimed && s.mistaken <= mistaken
    ensures Inv(s.(reclaimed := reclaimed, mistaken := mistaken))
  {
    hide WellKept, HasId, Sound, RailRight;
    var s' := s.(reclaimed := reclaimed, mistaken := mistaken);
    forall other
      ensures TakenRight(s', other)
    {
      assert TakenRight(s, other);
    }
    forall j | 0 <= j < |s'.attempts|
      ensures Sound(s', j, s'.attempts[j])
    {
      SoundInSameStores(s, s', j, s.attempts[j]);
    }
    RailSame(s, s');
  }

  /** Nobody needs this reservation, or taking it was noted as a mistake. */
  predicate Free(s: World, id: string) {
    id in s.takenBy ==>
      || id in s.mistaken
      || (&& s.takenBy[id] < |s.attempts|
          && !Holds(s.attempts[s.takenBy[id]])
          && (s.attempts[s.takenBy[id]].railed ==> id in s.reclaimed))
  }

  /** A reservation nobody needs any more is released. */
  lemma ReleaseKeeps(s: World, id: string)
    requires Inv(s) && Free(s, id)
    ensures Inv(ReleasedWorld(s, id))
  {
    hide WellKept, HasId, Sound, RailRight, Holds, Free;
    var s' := ReleasedWorld(s, id);
    if id !in s.book.committed {
      ApplyKeeps(s.book, DoRelease(id));
      forall other
        ensures HasId(s'.book.rows, other) <==> other in s'.takenBy
      {
        ReleasedIds(s.book.rows, id, other);
      }
      forall other
        ensures TakenRight(s', other)
      {
        assert TakenRight(s, other);
      }
      forall j | 0 <= j < |s'.attempts|
        ensures Sound(s', j, s'.attempts[j])
      {
        SoundAfterRelease(s, id, j);
      }
      RailSame(s, s');
    }
  }

  lemma ReleasedIds(rows: seq<Row>, id: string, other: string)
    ensures HasId(Without(rows, id), other) <==> HasId(rows, other) && other != id
  {
    if HasId(Without(rows, id), other) {
      var k :| 0 <= k < |Without(rows, id)| && Without(rows, id)[k].id == other;
      assert Without(rows, id)[k] in Without(rows, id);
    }
  }

  lemma SoundAfterRelease(s: World, id: string, j: nat)
    requires Inv(s) && j < |s.attempts| && id !in s.book.committed && Free(s, id)
    ensures Sound(ReleasedWorld(s, id), j, s.attempts[j])
  {
    hide WellKept, HasId, TakenRight, RailRight;
    assert Sound(s, j, s.attempts[j]);
  }

  // ---------- Every action keeps it ----------

  lemma ReserveStepKeeps(s: World, i: nat, fault: Fault)
    requires Inv(s) && At(s, i, Reserving)
    ensures Inv(StepReserve(s, i, fault))
  {
    hide Inv, ReserveAnswer, AfterReserve, WellKept, HasId;
    var a := s.attempts[i];
    SoundOf(s, i);
    var answer := ReserveAnswer(s.book, a.req);
    if fault.Before? {
      MoveKeeps(s, i, a.(pc := Done(Denied), threw := true));
    } else if answer.Reserved? {
      var a' := if fault.After? then a.(pc := Done(Denied), threw := true, took := true)
                else a.(pc := if a.mandate.Some? then LookingUp else FreezeCheck, took := true);
      SoundOnTaking(s, i, a');
      TakeKeeps(s, i, a');
    } else if fault.After? {
      MoveKeeps(s, i, a.(pc := Done(Denied), threw := true));
    } else {
      var a' := if answer.Refused? then a.(pc := Done(Denied))
                else a.(pc := if a.mandate.Some? then LookingUp else Done(ReplayedAnswer));
      MoveKeeps(s, i, a');
    }
  }

  lemma SoundOf(s: World, i: nat)
    requires Inv(s) && i < |s.attempts|
    ensures Sound(s, i, s.attempts[i])
  {
  }

  lemma SoundOnTaking(s: World, i: nat, a: Attempt)
    requires i < |s.attempts| && Sound(s, i, s.attempts[i]) && s.attempts[i].pc.Reserving?
    requires ReserveAnswer(s.book, a.req).Reserved? && a.took
    requires a.req == s.attempts[i].req && a.claimed == s.attempts[i].claimed
    requires a.railed == s.attempts[i].railed && a.fate == s.attempts[i].fate
    requires a.pc == Done(Denied) ==> a.threw
    requires a.pc == Done(Denied) || a.pc == LookingUp || (a.pc == FreezeCheck && a.mandate.None?)
    ensures Sound(Taken(s, i, a), i, a)
  {
    hide ReserveAnswer, AfterReserve, WellKept, HasId;
    ReservedAddsRow(s.book, a.req);
  }

  lemma LookUpStepKeeps(s: World, i: nat, known: bool, fault: Fault)
    requires Inv(s) && At(s, i, LookingUp) && s.attempts[i].mandate.Some?
    ensures Inv(StepLookUp(s, i, known, fault))
  {
    hide Inv, WellKept, HasId, UseOf;
    SoundOf(s, i);
    var a := s.attempts[i];
    if !fault.Fine? {
      ThrowKeeps(s, i);
    } else if !known {
      PlainMove(s, i, Releasing(Denied));
    } else if UseOf(a) in s.claims {
      PriorKeeps(s, i, s.claims[UseOf(a)]);
    } else {
      PlainMove(s, i, Checking);
    }
  }

  lemma ThrowKeeps(s: World, i: nat)
    requires Inv(s) && i < |s.attempts| && !s.attempts[i].railed
    ensures Inv(Throw(s, i))
  {
    hide Inv, WellKept, HasId;
    SoundOf(s, i);
    MoveKeeps(s, i, s.attempts[i].(pc := Done(Denied), threw := true));
  }

  lemma PriorKeeps(s: World, i: nat, prior: Claim)
    requires Inv(s) && i < |s.attempts| && (s.attempts[i].pc.LookingUp? || s.attempts[i].pc.Claiming?)
    ensures Inv(AfterPrior(s, i, prior))
  {
    hide Inv, WellKept, HasId, Sound;
    PlainMove(s, i, Releasing(if prior.digest == s.attempts[i].digest then ReplayedAnswer else Denied));
  }

  lemma ClaimStepKeeps(s: World, i: nat, fault: Fault)
    requires Inv(s) && At(s, i, Claiming) && s.attempts[i].mandate.Some?
    ensures Inv(StepClaim(s, i, fault))
  {
    hide Inv, WellKept, HasId, UsesOf;
    SoundOf(s, i);
    var a := s.attempts[i];
    var use, full := UseOf(a), |UsesOf(s.claims, a.mandate.value.id)| >= a.mandate.value.maxUses;
    if fault.Before? || (fault.After? && (use in s.claims || full)) {
      ThrowKeeps(s, i);
    } else if use in s.claims {
      PriorKeeps(s, i, s.claims[use]);
    } else if full {
      PlainMove(s, i, Releasing(Denied));
    } else {
      var a' := if fault.After? then a.(pc := Done(Denied), threw := true, claimed := true)
                else a.(pc := Recording, claimed := true);
      ClaimKeeps(s, i, a');
    }
  }

  lemma RecordStepKeeps(s: World, i: nat, ok: bool)
    requires Inv(s) && At(s, i, Recording)
    ensures Inv(StepRecord(s, i, ok))
  {
    hide Inv, WellKept, HasId;
    SoundOf(s, i);
    MoveKeeps(s, i, StepRecord(s, i, ok).attempts[i]);
  }

  lemma StartStepKeeps(s: World, i: nat, ok: bool)
    requires Inv(s) && At(s, i, Starting)
    ensures Inv(StepStart(s, i, ok))
  {
    hide Inv, WellKept, HasId;
    SoundOf(s, i);
    var a := StepStart(s, i, ok).attempts[i];
    if ok {
      RailKeeps(s, i, a);
    } else {
      MoveKeeps(s, i, a);
    }
  }

  lemma CommitStepKeeps(s: World, i: nat, fault: Fault)
    requires Inv(s) && At(s, i, Committing)
    ensures Inv(StepCommit(s, i, fault))
  {
    hide Inv, WellKept, HasId, AfterCommit;
    SoundOf(s, i);
    var a := s.attempts[i].(pc := Done(Executed), threw := s.attempts[i].threw || !fault.Fine?);
    if fault.Before? {
      MoveKeeps(s, i, a);
    } else {
      CommitKeeps(s, IntentId(s.attempts[i]), s.reported);
      var s' := s.(book := AfterCommit(s.book, IntentId(s.attempts[i])));
      SoundOf(s', i);
      MoveKeeps(s', i, a);
    }
  }

  lemma ReleaseStepKeeps(s: World, i: nat, fault: Fault, answer: Answer)
    requires Inv(s) && At(s, i, Releasing(answer))
    ensures Inv(StepRelease(s, i, fault, answer))
  {
    hide Inv, WellKept, HasId;
    SoundOf(s, i);
    var a := s.attempts[i];
    if !a.took {
      MoveKeeps(s, i, a.(pc := Done(answer)));
    } else {
      var a' := a.(pc := Done(answer), threw := a.threw || !fault.Fine?);
      if fault.Before? {
        MoveKeeps(s, i, a');
      } else {
        GivingBack(s, i, a');
      }
    }
  }

  /** First the attempt ends, marked as having failed; then its row goes; then the mark goes. */
  lemma GivingBack(s: World, i: nat, a: Attempt)
    requires Inv(s) && i < |s.attempts| && s.attempts[i].pc.Releasing? && s.attempts[i].took
    requires a == s.attempts[i].(pc := Done(s.attempts[i].pc.answer), threw := a.threw)
    ensures Inv(Move(ReleasedWorld(s, IntentId(a)), i, a))
  {
    hide Inv, WellKept, HasId, AfterRelease;
    SoundOf(s, i);
    var marked := a.(threw := true);
    MoveKeeps(s, i, marked);
    var s1 := Move(s, i, marked);
    ReleaseKeeps(s1, IntentId(a));
    var s2 := ReleasedWorld(s1, IntentId(a));
    SoundOf(s2, i);
    MoveKeeps(s2, i, a);
    assert s2.attempts[i := a] == s.attempts[i := a];
  }

  lemma ResolveKeeps(s: World, i: nat, charged: bool)
    requires Inv(s) && i < |s.attempts| && s.attempts[i].railed && s.attempts[i].fate.Unknown?
    ensures Inv(StepResolve(s, i, charged))
  {
    hide Inv, WellKept, HasId;
    SoundOf(s, i);
    MoveKeeps(s, i, s.attempts[i].(fate := if charged then Charged else Uncharged));
  }

  lemma ReclaimKeeps(s: World, id: string)
    requires Inv(s)
    ensures Inv(StepReclaim(s, id))
  {
    hide Inv, WellKept, HasId, ReleasedWorld, Holds;
    var mistaken := s.mistaken + if Needed(s, id) then {id} else {};
    NoteKeeps(s, s.reclaimed + {id}, mistaken);
    TakerIsThere(s, id);
    ReleaseKeeps(s.(reclaimed := s.reclaimed + {id}, mistaken := mistaken), id);
  }

  lemma TakerIsThere(s: World, id: string)
    requires Inv(s)
    ensures id in s.takenBy ==> s.takenBy[id] < |s.attempts| && IntentId(s.attempts[s.takenBy[id]]) == id
  {
    hide WellKept, HasId, Sound, RailRight;
    assert TakenRight(s, id);
  }

  lemma BeginKeeps(s: World, req: Request, digest: string, mandate: Option<Mandate>, twoPhase: bool)
    requires Inv(s)
    ensures Inv(Step(s, Begin(req, digest, mandate, twoPhase)))
  {
    hide WellKept, HasId;
    var s' := Step(s, Begin(req, digest, mandate, twoPhase));
    forall id
      ensures TakenRight(s', id)
    {
      assert TakenRight(s, id);
    }
    forall j | 0 <= j < |s'.attempts|
      ensures Sound(s', j, s'.attempts[j])
    {
      if j < |s.attempts| {
        SoundInSameStores(s, s', j, s.attempts[j]);
      } else {
        assert forall id :: TakenRight(s, id);
        assert TakenRight(s, req.reservationId);
      }
    }
  }

  lemma StepKeepsInv(s: World, action: Action)
    requires Inv(s)
    ensures Inv(Step(s, action))
  {
    hide Inv, WellKept, HasId, StepReserve, StepLookUp, StepClaim, StepRecord, StepStart, StepCommit, StepRelease, StepResolve, StepReclaim, ReleasedWorld, AfterCommit;
    match action
    case Begin(req, digest, mandate, twoPhase) =>
      BeginKeeps(s, req, digest, mandate, twoPhase);
    case Decide(i, allowed) =>
      if At(s, i, Deciding) {
        SoundOf(s, i);
        PlainMove(s, i, if allowed then Reserving else Done(Denied));
      }
    case Reserve(i, fault) =>
      if At(s, i, Reserving) {
        ReserveStepKeeps(s, i, fault);
      }
    case LookUp(i, known, fault) =>
      if At(s, i, LookingUp) && s.attempts[i].mandate.Some? {
        LookUpStepKeeps(s, i, known, fault);
      }
    case Check(i, ok) =>
      if At(s, i, Checking) {
        PlainMove(s, i, if ok then Claiming else Releasing(Denied));
      }
    case ClaimUse(i, fault) =>
      if At(s, i, Claiming) && s.attempts[i].mandate.Some? {
        ClaimStepKeeps(s, i, fault);
      }
    case Record(i, ok) =>
      if At(s, i, Recording) {
        RecordStepKeeps(s, i, ok);
      }
    case ReadFreeze(i, frozen) =>
      if At(s, i, FreezeCheck) {
        PlainMove(s, i, if frozen then Releasing(Denied) else Starting);
      }
    case Start(i, ok) =>
      if At(s, i, Starting) {
        StartStepKeeps(s, i, ok);
      }
    case Execute(i, ok) =>
      if At(s, i, Executing) {
        PlainMove(s, i, if ok then Committing else Done(Failed));
      }
    case CommitSpend(i, fault) =>
      if At(s, i, Committing) {
        CommitStepKeeps(s, i, fault);
      }
    case ReleaseOurs(i, fault) =>
      if i < |s.attempts| && s.attempts[i].pc.Releasing? {
        ReleaseStepKeeps(s, i, fault, s.attempts[i].pc.answer);
      }
    case Resolve(i, charged) =>
      if i < |s.attempts| && s.attempts[i].railed && s.attempts[i].fate.Unknown? {
        ResolveKeeps(s, i, charged);
      }
    case Report(id) =>
      CommitKeeps(s, id, s.reported + {id});
    case Reclaim(id) =>
      ReclaimKeeps(s, id);
  }

  /** The steps that only read: a verdict, a check, a freeze flag, an executor's outcome. */
  predicate PlainStep(from: Pc, to: Pc) {
    || (from.Deciding? && (to.Reserving? || to == Done(Denied)))
    || ((from.LookingUp? || from.Claiming?) && (to.Checking? || to == Releasing(Denied) || to == Releasing(ReplayedAnswer)))
    || (from.Checking? && (to.Claiming? || to == Releasing(Denied)))
    || (from.FreezeCheck? && (to.Starting? || to == Releasing(Denied)))
    || (from.Executing? && (to.Committing? || to == Done(Failed)))
  }

  lemma PlainMove(s: World, i: nat, pc: Pc)
    requires Inv(s) && i < |s.attempts| && PlainStep(s.attempts[i].pc, pc)
    ensures Inv(Move(s, i, s.attempts[i].(pc := pc)))
  {
    hide Inv, WellKept, HasId;
    SoundOf(s, i);
    MoveKeeps(s, i, s.attempts[i].(pc := pc));
  }

  lemma {:induction false} RunKeepsInv(actions: seq<Action>)
    ensures Inv(Run(actions))
  {
    if actions != [] {
      hide Inv, Step;
      RunKeepsInv(actions[..|actions| - 1]);
      StepKeepsInv(Run(actions[..|actions| - 1]), actions[|actions| - 1]);
    }
  }
}

/** Settlement evidence: what the two-phase path writes, and what a restart counts from it. */
module Settlement {
  import opened Prelude
  import opened SpendWindow

  /** The economic fields of a row that hydration can count. */
  datatype Money = Money(amountMinor: Amount, currency: string, merchantId: string, merchantKey: Option<string>, rail: string)

  /** Ledger rows that matter here; `money` is absent when the fields are missing or unusable. */
  datatype Row =
    | Started(intentId: string, twoPhase: bool, money: Option<Money>)
    | Result(intentId: string, success: bool, selfReported: bool, money: Option<Money>)
    | Other(intentId: string)

  // ---------- The current authorization ----------

  predicate Snapshot(row: Row) {
    row.Started? && row.twoPhase
  }

  predicate SnapshotFor(row: Row, id: string) {
    Snapshot(row) && row.intentId == id
  }

  /** The last two-phase authorization of this intent among the first n rows. */
  function LastSnapshot(rows: seq<Row>, n: nat, id: string): (a: int)
    requires n <= |rows|
    ensures -1 <= a < n
    ensures a >= 0 ==> SnapshotFor(rows[a], id)
    ensures forall k :: a < k < n ==> !SnapshotFor(rows[k], id)
  {
    if n == 0 then -1 else if SnapshotFor(rows[n - 1], id) then n - 1 else LastSnapshot(rows, n - 1, id)
  }

  /** A result of this intent after row a: any result, or a success only. */
  predicate ResultAfter(rows: seq<Row>, a: int, id: string, successOnly: bool)
    requires -1 <= a
  {
    exists k :: a < k < |rows| && ResultFor(rows[k], id, successOnly)
  }

  predicate ResultFor(row: Row, id: string, successOnly: bool) {
    row.Result? && row.intentId == id && (successOnly ==> row.success)
  }

  /** An executed outcome is suppressed only by a success, a failed one by any result. */
  function Settled(rows: seq<Row>, id: string, executed: bool): seq<Row> {
    var a := LastSnapshot(rows, |rows|, id);
    if ResultAfter(rows, a, id, executed) then rows
    else rows + [Result(id, executed, true, if a >= 0 then rows[a].money else None)]
  }

  // ---------- What a guard appends ----------

  /** `read` and `write` say whether the ledger answered. */
  datatype Action =
    | Authorize(intentId: string, money: Money)
    | Settle(intentId: string, executed: bool, read: bool, write: bool)
    | Execute(intentId: string, money: Money, ok: bool, write: bool)
    | Note(intentId: string)

  function Step(rows: seq<Row>, action: Action): seq<Row> {
    match action
    case Authorize(id, money) => rows + [Started(id, true, Some(money))]
    case Settle(id, executed, read, write) =>
      if !write then rows
      else if !read then rows + [Result(id, executed, true, None)]
      else Settled(rows, id, executed)
    case Execute(id, money, ok, write) =>
      rows + [Started(id, false, None)] + if write then [Result(id, ok, false, Some(money))] else []
    case Note(id) => rows + [Other(id)]
  }

  function Run(actions: seq<Action>): seq<Row> {
    if actions == [] then [] else Step(Run(actions[..|actions| - 1]), actions[|actions| - 1])
  }

  // ---------- The method's two searches ----------

  /** The trail of one intent, with the position of each row. */
  function Trail(rows: seq<Row>, id: string): (trail: seq<nat>)
    ensures forall k :: 0 <= k < |trail| ==> trail[k] < |rows| && rows[trail[k]].intentId == id
    ensures forall i :: i in trail <==> 0 <= i < |rows| && rows[i].intentId == id
    ensures forall j, k :: 0 <= j < k < |trail| ==> trail[j] < trail[k]
  {
    if rows == [] then []
    else
      var n := |rows| - 1;
      var before := Trail(rows[..n], id);
      if rows[n].intentId == id then before + [n] else before
  }

  class Guard {
    var ledger: seq<Row>

    constructor ()
      ensures ledger == []
    {
      ledger := [];
    }

    /** Search back for the current authorization, then forward for an outcome that stands. */
    method RecordSettlement(id: string, executed: bool)
      modifies this
      ensures ledger == Settled(old(ledger), id, executed)
    {
      hide *;
      var rows, trail := ledger, Trail(ledger, id);
      TrailIsSound(rows, id);
      var i := |trail|;
      while i > 0 && !Snapshot(rows[trail[i - 1]])
        invariant 0 <= i <= |trail| && ledger == rows
        invariant forall k :: i <= k < |trail| ==> !Snapshot(rows[trail[k]])
      {
        i := i - 1;
      }
      var authIndex := i - 1;
      CurrentAuthorization(rows, id, trail, i);
      var j := authIndex + 1;
      while j < |trail|
        invariant authIndex + 1 <= j <= |trail| && ledger == rows
        invariant forall k :: authIndex < k < j ==> !ResultFor(rows[trail[k]], id, executed)
      {
        var e := rows[trail[j]];
        ResultForMeans(e, id, executed);
        if e.Result? && (!executed || e.success) {
          AlreadySettled(rows, id, trail, authIndex, j, executed);
          return;
        }
        j := j + 1;
      }
      NotSettled(rows, id, trail, authIndex, executed);
      ledger := rows + [Result(id, executed, true, if authIndex >= 0 then rows[trail[authIndex]].money else None)];
    }
  }

  predicate TrailOf(rows: seq<Row>, id: string, trail: seq<nat>) {
    && (forall k :: 0 <= k < |trail| ==> trail[k] < |rows| && rows[trail[k]].intentId == id)
    && (forall i :: 0 <= i < |rows| && rows[i].intentId == id ==> i in trail)
    && (forall j, k :: 0 <= j < k < |trail| ==> trail[j] < trail[k])
  }

  lemma TrailIsSound(rows: seq<Row>, id: string)
    ensures TrailOf(rows, id, Trail(rows, id))
    ensures forall k :: 0 <= k < |Trail(rows, id)| ==> Trail(rows, id)[k] < |rows| && rows[Trail(rows, id)[k]].intentId == id
  {
  }

  lemma ResultForMeans(row: Row, id: string, executed: bool)
    requires row.intentId == id
    ensures ResultFor(row, id, executed) <==> row.Result? && (!executed || row.success)
  {
  }

  lemma CurrentAuthorization(rows: seq<Row>, id: string, trail: seq<nat>, i: nat)
    requires TrailOf(rows, id, trail) && i <= |trail| && forall k :: 0 <= k < |trail| ==> trail[k] < |rows|
    requires i > 0 ==> Snapshot(rows[trail[i - 1]])
    requires forall k :: i <= k < |trail| ==> !Snapshot(rows[trail[k]])
    ensures LastSnapshot(rows, |rows|, id) == PlaceOf(trail, i - 1)
    ensures i > 0 ==> rows[trail[i - 1]].Started?
  {
    hide LastSnapshot;
    var a := LastSnapshot(rows, |rows|, id);
    if a >= 0 {
      assert a in trail;
    }
  }

  function PlaceOf(trail: seq<nat>, authIndex: int): int
    requires -1 <= authIndex < |trail|
  {
    if authIndex >= 0 then trail[authIndex] else -1
  }

  lemma AlreadySettled(rows: seq<Row>, id: string, trail: seq<nat>, authIndex: int, j: int, executed: bool)
    requires TrailOf(rows, id, trail) && -1 <= authIndex < j < |trail| && trail[j] < |rows|
    requires LastSnapshot(rows, |rows|, id) == PlaceOf(trail, authIndex)
    requires ResultFor(rows[trail[j]], id, executed)
    ensures Settled(rows, id, executed) == rows
  {
    hide LastSnapshot;
  }

  lemma NotSettled(rows: seq<Row>, id: string, trail: seq<nat>, authIndex: int, executed: bool)
    requires TrailOf(rows, id, trail) && -1 <= authIndex < |trail|
    requires forall k :: 0 <= k < |trail| ==> trail[k] < |rows|
    requires LastSnapshot(rows, |rows|, id) == PlaceOf(trail, authIndex)
    requires forall k :: authIndex < k < |trail| ==> !ResultFor(rows[trail[k]], id, executed)
    ensures Settled(rows, id, executed)
      == rows + [Result(id, executed, true, if authIndex >= 0 then rows[trail[authIndex]].money else None)]
  {
    hide LastSnapshot;
    var a := PlaceOf(trail, authIndex);
    forall k | a < k < |rows|
      ensures !ResultFor(rows[k], id, executed)
    {
      if rows[k].intentId == id {
        var j :| 0 <= j < |trail| && trail[j] == k;
        assert j > authIndex;
      }
    }
  }

  // ---------- One countable success per authorization ----------

  /** A self-reported success that hydration counts. */
  predicate Countable(row: Row) {
    row.Result? && row.success && row.selfReported && row.money.Some?
  }

  function AuthorizationOf(rows: seq<Row>, k: nat): int
    requires k < |rows|
  {
    LastSnapshot(rows, k, rows[k].intentId)
  }

  /** It settles an authorization, with that authorization's money, and is the only one to. */
  predicate SettlesOne(rows: seq<Row>, k: nat)
    requires k < |rows|
  {
    Countable(rows[k]) ==>
      && AuthorizationOf(rows, k) >= 0
      && rows[AuthorizationOf(rows, k)].money == rows[k].money
      && forall j :: AuthorizationOf(rows, k) < j < k ==> !ResultFor(rows[j], rows[k].intentId, true)
  }

  predicate SnapshotsCarryMoney(rows: seq<Row>) {
    forall k :: 0 <= k < |rows| && Snapshot(rows[k]) ==> rows[k].money.Some?
  }

  predicate Sound(rows: seq<Row>) {
    SnapshotsCarryMoney(rows) && forall k :: 0 <= k < |rows| ==> SettlesOne(rows, k)
  }

  lemma {:induction false} LastSnapshotOfPrefix(rows: seq<Row>, more: seq<Row>, n: nat, id: string)
    requires n <= |rows|
    ensures LastSnapshot(rows + more, n, id) == LastSnapshot(rows, n, id)
  {
    if n > 0 {
      LastSnapshotOfPrefix(rows, more, n - 1, id);
    }
  }

  lemma SoundSnoc(rows: seq<Row>, row: Row)
    requires Sound(rows) && (Snapshot(row) ==> row.money.Some?)
    requires Countable(row) ==> SettlesOne(rows + [row], |rows|)
    ensures Sound(rows + [row])
  {
    hide LastSnapshot;
    forall k | 0 <= k < |rows + [row]|
      ensures SettlesOne(rows + [row], k)
    {
      if k < |rows| {
        assert SettlesOne(rows, k);
        LastSnapshotOfPrefix(rows, [row], k, rows[k].intentId);
      }
    }
  }

  lemma SettledIsSound(rows: seq<Row>, id: string, executed: bool)
    requires Sound(rows)
    ensures Sound(Settled(rows, id, executed))
  {
    hide LastSnapshot;
    var a := LastSnapshot(rows, |rows|, id);
    if !ResultAfter(rows, a, id, executed) {
      var row := Result(id, executed, true, if a >= 0 then rows[a].money else None);
      LastSnapshotOfPrefix(rows, [row], |rows|, id);
      forall j | a < j < |rows| && executed
        ensures !ResultFor((rows + [row])[j], id, true)
      {
        assert !ResultFor(rows[j], id, executed);
      }
      SoundSnoc(rows, row);
    }
  }

  lemma StepIsSound(rows: seq<Row>, action: Action)
    requires Sound(rows)
    ensures Sound(Step(rows, action))
  {
    hide Sound, LastSnapshot, Settled;
    match action
    case Authorize(id, money) =>
      SoundSnoc(rows, Started(id, true, Some(money)));
    case Settle(id, executed, read, write) =>
      if write && read {
        SettledIsSound(rows, id, executed);
      } else if write {
        SoundSnoc(rows, Result(id, executed, true, None));
      }
    case Execute(id, money, ok, write) =>
      SoundSnoc(rows, Started(id, false, None));
      SoundSnoc(rows + [Started(id, false, None)], Result(id, ok, false, Some(money)));
      assert rows + [Started(id, false, None)] + [] == rows + [Started(id, false, None)];
    case Note(id) =>
      SoundSnoc(rows, Other(id));
  }

  lemma {:induction false} RunIsSound(actions: seq<Action>)
    ensures Sound(Run(actions))
  {
    if actions != [] {
      hide Sound, Step;
      RunIsSound(actions[..|actions| - 1]);
      StepIsSound(Run(actions[..|actions| - 1]), actions[|actions| - 1]);
    }
  }

  /** However often and however late outcomes are reported, and whatever reads or writes fail,
      no two countable successes settle one authorization, and each carries its money. */
  lemma OneSuccessPerAuthorization(actions: seq<Action>, j: nat, k: nat)
    requires var rows := Run(actions); j < k < |rows| && Countable(rows[j]) && Countable(rows[k])
    ensures var rows := Run(actions);
      && AuthorizationOf(rows, j) >= 0 && rows[AuthorizationOf(rows, j)].money == rows[j].money
      && AuthorizationOf(rows, j) != AuthorizationOf(rows, k)
  {
    hide Run, LastSnapshot;
    RunIsSound(actions);
    var rows := Run(actions);
    assert SettlesOne(rows, j) && SettlesOne(rows, k);
    assert rows[AuthorizationOf(rows, j)].intentId == rows[j].intentId;
    assert rows[AuthorizationOf(rows, k)].intentId == rows[k].intentId;
    assert ResultFor(rows[j], rows[j].intentId, true);
  }

  // ---------- Outcomes land ----------

  predicate Authorizes(action: Action, id: string) {
    action.Authorize? && action.intentId == id
  }

  /** The actions that write a result of this intent, or a success of it, whatever the ledger
      read answered. */
  predicate WritesResult(action: Action, id: string, successOnly: bool) {
    || (action.Settle? && action.intentId == id && action.write && (successOnly ==> action.executed))
    || (action.Execute? && action.intentId == id && action.write && (successOnly ==> action.ok))
  }

  predicate SomeResult(actions: seq<Action>, id: string, successOnly: bool) {
    exists k :: 0 <= k < |actions| && WritesResult(actions[k], id, successOnly)
  }

  /** The current authorization of this intent carries this money, and a result, or a success,
      follows it exactly when `done`. */
  predicate Current(rows: seq<Row>, id: string, money: Money, successOnly: bool, done: bool) {
    var a := LastSnapshot(rows, |rows|, id);
    a >= 0 && rows[a].money == Some(money) && (ResultAfter(rows, a, id, successOnly) <==> done)
  }

  lemma CurrentSnoc(rows: seq<Row>, row: Row, id: string, money: Money, successOnly: bool, done: bool)
    requires Current(rows, id, money, successOnly, done) && !SnapshotFor(row, id)
    ensures Current(rows + [row], id, money, successOnly, done || ResultFor(row, id, successOnly))
  {
    hide LastSnapshot, ResultFor;
    var a, all := LastSnapshot(rows, |rows|, id), rows + [row];
    LastSnapshotOfPrefix(rows, [row], |rows|, id);
    LastSnapshotSnoc(rows, row, id);
    assert all[|rows|] == row;
    if k :| a < k < |rows| && ResultFor(rows[k], id, successOnly) {
      assert ResultFor(all[k], id, successOnly);
    }
    if k :| a < k < |all| && ResultFor(all[k], id, successOnly) {
      assert k < |rows| ==> ResultFor(rows[k], id, successOnly);
    }
  }

  lemma LastSnapshotSnoc(rows: seq<Row>, row: Row, id: string)
    ensures LastSnapshot(rows + [row], |rows + [row]|, id)
      == if SnapshotFor(row, id) then |rows| else LastSnapshot(rows + [row], |rows|, id)
  {
  }

  lemma AuthorizeIsCurrent(rows: seq<Row>, id: string, money: Money, successOnly: bool)
    ensures Current(Step(rows, Authorize(id, money)), id, money, successOnly, false)
  {
  }

  lemma StepKeepsCurrent(rows: seq<Row>, action: Action, id: string, money: Money, successOnly: bool, done: bool)
    requires Current(rows, id, money, successOnly, done) && !Authorizes(action, id)
    ensures Current(Step(rows, action), id, money, successOnly, done || WritesResult(action, id, successOnly))
  {
    hide Current, LastSnapshot;
    match action
    case Authorize(other, m) =>
      CurrentSnoc(rows, Started(other, true, Some(m)), id, money, successOnly, done);
    case Settle(other, executed, read, write) =>
      if write && read {
        SettledKeepsCurrent(rows, other, executed, id, money, successOnly, done);
      } else if write {
        CurrentSnoc(rows, Result(other, executed, true, None), id, money, successOnly, done);
      }
    case Execute(other, m, ok, write) =>
      var started := rows + [Started(other, false, None)];
      CurrentSnoc(rows, Started(other, false, None), id, money, successOnly, done);
      assert started + [] == started;
      if write {
        CurrentSnoc(started, Result(other, ok, false, Some(m)), id, money, successOnly, done);
      }
    case Note(other) =>
      CurrentSnoc(rows, Other(other), id, money, successOnly, done);
  }

  lemma SettledKeepsCurrent(rows: seq<Row>, other: string, executed: bool, id: string, money: Money, successOnly: bool, done: bool)
    requires Current(rows, id, money, successOnly, done)
    ensures Current(Settled(rows, other, executed), id, money, successOnly, done || (other == id && (successOnly ==> executed)))
  {
    hide LastSnapshot;
    var a := LastSnapshot(rows, |rows|, other);
    if ResultAfter(rows, a, other, executed) {
      assert other == id && (successOnly ==> executed) ==> done by {
        var k :| a < k < |rows| && ResultFor(rows[k], other, executed);
        assert other == id && (successOnly ==> executed) ==> ResultFor(rows[k], id, successOnly);
      }
    } else {
      CurrentSnoc(rows, Result(other, executed, true, if a >= 0 then rows[a].money else None), id, money, successOnly, done);
    }
  }

  lemma {:induction false} RunKeepsCurrent(before: seq<Action>, mid: seq<Action>, id: string, money: Money, successOnly: bool)
    requires forall k :: 0 <= k < |mid| ==> !Authorizes(mid[k], id)
    ensures Current(Run(before + [Authorize(id, money)] + mid), id, money, successOnly, SomeResult(mid, id, successOnly))
  {
    hide Current, Step;
    var start := before + [Authorize(id, money)];
    if mid == [] {
      RunSnoc(before, Authorize(id, money));
      assert start + mid == start;
      AuthorizeIsCurrent(Run(before), id, money, successOnly);
    } else {
      var n := |mid| - 1;
      assert start + mid == start + mid[..n] + [mid[n]];
      RunSnoc(start + mid[..n], mid[n]);
      RunKeepsCurrent(before, mid[..n], id, money, successOnly);
      StepKeepsCurrent(Run(start + mid[..n]), mid[n], id, money, successOnly, SomeResult(mid[..n], id, successOnly));
      assert mid == mid[..n] + [mid[n]];
      SomeResultSnoc(mid[..n], mid[n], id, successOnly);
    }
  }

  lemma RunSnoc(actions: seq<Action>, action: Action)
    ensures Run(actions + [action]) == Step(Run(actions), action)
  {
    hide Step;
    assert (actions + [action])[..|actions|] == actions;
  }

  lemma SomeResultSnoc(actions: seq<Action>, action: Action, id: string, successOnly: bool)
    ensures SomeResult(actions + [action], id, successOnly) <==> SomeResult(actions, id, successOnly) || WritesResult(action, id, successOnly)
  {
    hide WritesResult;
    var all := actions + [action];
    assert all[|actions|] == action;
    if k :| 0 <= k < |actions| && WritesResult(actions[k], id, successOnly) {
      assert WritesResult(all[k], id, successOnly);
    }
    if k :| 0 <= k < |all| && WritesResult(all[k], id, successOnly) {
      assert k < |actions| ==> WritesResult(actions[k], id, successOnly);
    }
  }

  /** After an authorization, and whatever failures, failed writes, unread trails and other
      intents come in between, the executed outcome adds exactly one success with the amounts
      that were authorized, unless a success of this intent was already written since; then it
      adds nothing. */
  lemma ExecutedLands(before: seq<Action>, mid: seq<Action>, id: string, money: Money)
    requires forall k :: 0 <= k < |mid| ==> !Authorizes(mid[k], id)
    ensures var history := before + [Authorize(id, money)] + mid;
      Run(history + [Settle(id, true, true, true)])
        == Run(history) + if SomeResult(mid, id, true) then [] else [Result(id, true, true, Some(money))]
  {
    OutcomeLands(before, mid, id, money, true);
  }

  /** The failed outcome adds exactly one failure with those amounts, unless any result of this
      intent, success or failure, was already written since; then it adds nothing. */
  lemma FailedLands(before: seq<Action>, mid: seq<Action>, id: string, money: Money)
    requires forall k :: 0 <= k < |mid| ==> !Authorizes(mid[k], id)
    ensures var history := before + [Authorize(id, money)] + mid;
      Run(history + [Settle(id, false, true, true)])
        == Run(history) + if SomeResult(mid, id, false) then [] else [Result(id, false, true, Some(money))]
  {
    OutcomeLands(before, mid, id, money, false);
  }

  lemma OutcomeLands(before: seq<Action>, mid: seq<Action>, id: string, money: Money, executed: bool)
    requires forall k :: 0 <= k < |mid| ==> !Authorizes(mid[k], id)
    ensures var history := before + [Authorize(id, money)] + mid;
      Run(history + [Settle(id, executed, true, true)])
        == Run(history) + if SomeResult(mid, id, executed) then [] else [Result(id, executed, true, Some(money))]
  {
    hide LastSnapshot, Run, SomeResult;
    var history := before + [Authorize(id, money)] + mid;
    RunSnoc(history, Settle(id, executed, true, true));
    RunKeepsCurrent(before, mid, id, money, executed);
    assert Run(history) + [] == Run(history);
  }

  /** An outcome is never lost to a trail that cannot be read: it is recorded, without amounts. */
  lemma UnreadOutcomeLands(history: seq<Action>, id: string, executed: bool)
    ensures Run(history + [Settle(id, executed, false, true)]) == Run(history) + [Result(id, executed, true, None)]
  {
    hide Run;
    RunSnoc(history, Settle(id, executed, false, true));
  }

  // ---------- With every trail read, one success per snapshot ----------

  predicate ReadsAnswered(actions: seq<Action>) {
    forall k :: 0 <= k < |actions| && actions[k].Settle? ==> actions[k].read
  }

  predicate SelfReportedSuccess(row: Row) {
    row.Result? && row.success && row.selfReported
  }

  /** A self-reported success that follows an authorization carries money. */
  predicate CarriesMoney(rows: seq<Row>, k: nat)
    requires k < |rows|
  {
    SelfReportedSuccess(rows[k]) && AuthorizationOf(rows, k) >= 0 ==> rows[k].money.Some?
  }

  predicate AllCarryMoney(rows: seq<Row>) {
    forall k :: 0 <= k < |rows| ==> CarriesMoney(rows, k)
  }

  lemma CarrySnoc(rows: seq<Row>, row: Row)
    requires AllCarryMoney(rows)
    requires SelfReportedSuccess(row) && LastSnapshot(rows, |rows|, row.intentId) >= 0 ==> row.money.Some?
    ensures AllCarryMoney(rows + [row])
  {
    hide LastSnapshot;
    forall k | 0 <= k < |rows + [row]|
      ensures CarriesMoney(rows + [row], k)
    {
      LastSnapshotOfPrefix(rows, [row], k, (rows + [row])[k].intentId);
      assert k < |rows| ==> CarriesMoney(rows, k);
    }
  }

  lemma StepCarries(rows: seq<Row>, action: Action)
    requires AllCarryMoney(rows) && SnapshotsCarryMoney(rows) && (action.Settle? ==> action.read)
    ensures AllCarryMoney(Step(rows, action))
  {
    hide AllCarryMoney, LastSnapshot, ResultAfter;
    match action
    case Authorize(id, money) => CarrySnoc(rows, Started(id, true, Some(money)));
    case Settle(id, executed, read, write) =>
      var a := LastSnapshot(rows, |rows|, id);
      if write && !ResultAfter(rows, a, id, executed) {
        CarrySnoc(rows, Result(id, executed, true, if a >= 0 then rows[a].money else None));
      }
    case Execute(id, money, ok, write) =>
      var started := rows + [Started(id, false, None)];
      CarrySnoc(rows, Started(id, false, None));
      CarrySnoc(started, Result(id, ok, false, Some(money)));
      assert started + [] == started;
    case Note(id) => CarrySnoc(rows, Other(id));
  }

  lemma {:induction false} RunCarries(actions: seq<Action>)
    requires ReadsAnswered(actions)
    ensures AllCarryMoney(Run(actions))
  {
    if actions != [] {
      hide AllCarryMoney, Step, SnapshotsCarryMoney;
      var n := |actions| - 1;
      RunCarries(actions[..n]);
      RunIsSound(actions[..n]);
      StepCarries(Run(actions[..n]), actions[n]);
    }
  }

  /** While the ledger can be read, every self-reported success after an authorization carries
      that authorization's money, and no other one settles the same authorization. */
  lemma OneSuccessPerSnapshot(actions: seq<Action>, k: nat)
    requires ReadsAnswered(actions)
    requires var rows := Run(actions); k < |rows| && SelfReportedSuccess(rows[k]) && AuthorizationOf(rows, k) >= 0
    ensures var rows := Run(actions);
      && Countable(rows[k]) && rows[AuthorizationOf(rows, k)].money == rows[k].money
      && forall j :: 0 <= j < |rows| && j != k && SelfReportedSuccess(rows[j]) ==> AuthorizationOf(rows, j) != AuthorizationOf(rows, k)
  {
    hide Run, LastSnapshot;
    RunCarries(actions);
    RunIsSound(actions);
    var rows := Run(actions);
    assert CarriesMoney(rows, k) && SettlesOne(rows, k);
    forall j | 0 <= j < |rows| && j != k && SelfReportedSuccess(rows[j]) && AuthorizationOf(rows, j) >= 0
      ensures AuthorizationOf(rows, j) != AuthorizationOf(rows, k)
    {
      assert CarriesMoney(rows, j);
      if j < k {
        OneSuccessPerAuthorization(actions, j, k);
      } else {
        OneSuccessPerAuthorization(actions, k, j);
      }
    }
  }

  // ---------- What a restart counts ----------

  /** Rows hydration counts as spend: successes with usable money, of either path. */
  function Restored(rows: seq<Row>): nat {
    if rows == [] then 0
    else
      var row := rows[|rows| - 1];
      Restored(rows[..|rows| - 1]) + if row.Result? && row.success && row.money.Some? then row.money.value.amountMinor else 0
  }

  /** The successes `execute` wrote itself. */
  function Observed(rows: seq<Row>): nat {
    if rows == [] then 0
    else
      var row := rows[|rows| - 1];
      Observed(rows[..|rows| - 1])
      + if row.Result? && row.success && !row.selfReported && row.money.Some? then row.money.value.amountMinor else 0
  }

  predicate SettledBy(rows: seq<Row>, a: nat, k: nat) {
    k < |rows| && Countable(rows[k]) && AuthorizationOf(rows, k) == a
  }

  predicate IsSettled(rows: seq<Row>, a: nat) {
    exists k :: 0 <= k < |rows| && SettledBy(rows, a, k)
  }

  /** The money of the first n rows' authorizations that were settled as executed, each once. */
  function SettledMoney(rows: seq<Row>, n: nat): nat
    requires n <= |rows|
  {
    if n == 0 then 0 else
    SettledMoney(rows, n - 1)
      + (if Snapshot(rows[n - 1]) && rows[n - 1].money.Some? && IsSettled(rows, n - 1) then rows[n - 1].money.value.amountMinor else 0)
  }

  lemma IsSettledSnoc(rows: seq<Row>, row: Row, a: nat)
    requires a < |rows|
    ensures IsSettled(rows + [row], a) <==> IsSettled(rows, a) || (Countable(row) && LastSnapshot(rows, |rows|, row.intentId) == a)
  {
    hide LastSnapshot;
    forall k | 0 <= k < |rows|
      ensures SettledBy(rows + [row], a, k) <==> SettledBy(rows, a, k)
    {
      LastSnapshotOfPrefix(rows, [row], k, rows[k].intentId);
    }
    LastSnapshotOfPrefix(rows, [row], |rows|, row.intentId);
    assert SettledBy(rows + [row], a, |rows|) <==> Countable(row) && LastSnapshot(rows, |rows|, row.intentId) == a;
    if IsSettled(rows, a) {
      var k :| 0 <= k < |rows| && SettledBy(rows, a, k);
      assert SettledBy(rows + [row], a, k);
    }
  }

  lemma {:induction false} SettledMoneySnoc(rows: seq<Row>, row: Row, n: nat)
    requires n <= |rows| && Sound(rows + [row])
    ensures var a := LastSnapshot(rows, |rows|, row.intentId);
      SettledMoney(rows + [row], n) == SettledMoney(rows, n)
        + if Countable(row) && 0 <= a < n then row.money.value.amountMinor else 0
  {
    hide LastSnapshot, IsSettled, Sound, Countable;
    if n > 0 {
      SettledMoneySnoc(rows, row, n - 1);
      IsSettledSnoc(rows, row, n - 1);
      NewlySettled(rows, row, n - 1);
    }
  }

  lemma NewlySettled(rows: seq<Row>, row: Row, a: nat)
    requires a < |rows| && Sound(rows + [row])
    ensures Countable(row) && LastSnapshot(rows, |rows|, row.intentId) == a ==>
      !IsSettled(rows, a) && Snapshot(rows[a]) && rows[a].money == row.money && row.money.Some?
  {
    hide LastSnapshot;
    if Countable(row) && LastSnapshot(rows, |rows|, row.intentId) == a {
      var all := rows + [row];
      LastSnapshotOfPrefix(rows, [row], |rows|, row.intentId);
      assert SettlesOne(all, |rows|);
      forall k | a < k < |rows|
        ensures !ResultFor(rows[k], row.intentId, true)
      {
        assert all[k] == rows[k];
      }
    }
  }

  predicate Balanced(rows: seq<Row>) {
    Restored(rows) == Observed(rows) + SettledMoney(rows, |rows|)
  }

  lemma LastIsUnsettled(rows: seq<Row>)
    requires rows != []
    ensures !IsSettled(rows, |rows| - 1)
  {
  }

  lemma BalancedSnoc(rows: seq<Row>, row: Row)
    requires Balanced(rows) && Sound(rows + [row])
    ensures Balanced(rows + [row])
  {
    hide LastSnapshot, IsSettled, Sound;
    var all := rows + [row];
    assert all[..|all| - 1] == rows;
    SettledMoneySnoc(rows, row, |rows|);
    LastIsUnsettled(all);
    if Countable(row) {
      CountableHasAuthorization(rows, row);
    }
  }

  lemma CountableHasAuthorization(rows: seq<Row>, row: Row)
    requires Sound(rows + [row]) && Countable(row)
    ensures LastSnapshot(rows, |rows|, row.intentId) >= 0
  {
    hide LastSnapshot;
    assert SettlesOne(rows + [row], |rows|);
    LastSnapshotOfPrefix(rows, [row], |rows|, row.intentId);
  }

  /** Every way a step appends, one row at a time. */
  lemma StepBalances(rows: seq<Row>, action: Action)
    requires Balanced(rows) && Sound(rows)
    ensures Balanced(Step(rows, action))
  {
    hide Sound, Balanced, LastSnapshot, ResultAfter;
    StepIsSound(rows, action);
    match action
    case Authorize(id, money) =>
      BalancedSnoc(rows, Started(id, true, Some(money)));
    case Settle(id, executed, read, write) =>
      var rows' := Step(rows, action);
      if rows' != rows {
        assert rows' == rows + [rows'[|rows|]];
        BalancedSnoc(rows, rows'[|rows|]);
      }
    case Execute(id, money, ok, write) =>
      var started := rows + [Started(id, false, None)];
      SoundPrefix(rows, Started(id, false, None));
      BalancedSnoc(rows, Started(id, false, None));
      assert started + [] == started;
      if write {
        BalancedSnoc(started, Result(id, ok, false, Some(money)));
      }
    case Note(id) =>
      BalancedSnoc(rows, Other(id));
  }

  lemma SoundPrefix(rows: seq<Row>, row: Row)
    requires Sound(rows) && !Snapshot(row) && !Countable(row)
    ensures Sound(rows + [row])
  {
    SoundSnoc(rows, row);
  }

  /** After a restart the counter is the spend `execute` saw, plus each authorization settled
      as executed, counted once with its own amount. */
  lemma {:induction false} RestoredIsExact(actions: seq<Action>)
    ensures Restored(Run(actions)) == Observed(Run(actions)) + SettledMoney(Run(actions), |Run(actions)|)
  {
    if actions != [] {
      hide Sound, Step, Restored, Observed, SettledMoney;
      RestoredIsExact(actions[..|actions| - 1]);
      RunIsSound(actions[..|actions| - 1]);
      StepBalances(Run(actions[..|actions| - 1]), actions[|actions| - 1]);
    }
  }
}

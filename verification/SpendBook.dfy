/** The reference semantics of a spend limiter: an insertion-ordered book of reservations. */
module SpendBook {
  import opened Prelude
  import opened SpendWindow

  datatype State = Held | Committed

  /** A reservation; its state is kept beside it. */
  datatype Row = Row(id: string, scope: string, currency: string, spend: Spend)

  datatype Book = Book(rows: seq<Row>, committed: set<string>)

  datatype Request = Request(reservationId: string, scope: string, currency: string, windows: seq<Window>,
                             amountMinor: Number, nowMs: int, merchantKey: Option<string>)

  datatype ReserveResult = Reserved | Replayed(state: State) | Refused(code: string)

  const EMPTY := Book([], {})

  // ---------- Looking rows up ----------

  predicate HasId(rows: seq<Row>, id: string) {
    exists i :: 0 <= i < |rows| && rows[i].id == id
  }

  predicate DistinctIds(rows: seq<Row>) {
    forall i, j :: 0 <= i < j < |rows| ==> rows[i].id != rows[j].id
  }

  function InScope(rows: seq<Row>, scope: string, currency: string): seq<Spend> {
    if rows == [] then []
    else
      var before, r := InScope(rows[..|rows| - 1], scope, currency), rows[|rows| - 1];
      if r.scope == scope && r.currency == currency then before + [r.spend] else before
  }

  function StateOf(book: Book, id: string): State {
    if id in book.committed then Committed else Held
  }

  // ---------- The four operations ----------

  function NewRow(req: Request): Row
    requires UsableAmount(req.amountMinor)
  {
    Row(req.reservationId, req.scope, req.currency, Spend(req.amountMinor.value.Floor, req.nowMs, req.merchantKey))
  }

  function VerdictIn(book: Book, req: Request): (code: Option<string>)
    ensures code.None? ==> UsableAmount(req.amountMinor)
  {
    Verdict(req.windows, InScope(book.rows, req.scope, req.currency), req.amountMinor, req.nowMs, req.merchantKey)
  }

  function ReserveAnswer(book: Book, req: Request): ReserveResult {
    if HasId(book.rows, req.reservationId) then Replayed(StateOf(book, req.reservationId))
    else
      var violated := VerdictIn(book, req);
      if violated.Some? then Refused(violated.value) else Reserved
  }

  function AfterReserve(book: Book, req: Request): Book {
    if ReserveAnswer(book, req).Reserved? then book.(rows := book.rows + [NewRow(req)]) else book
  }

  function AfterCommit(book: Book, id: string): Book {
    if HasId(book.rows, id) then book.(committed := book.committed + {id}) else book
  }

  /** The rows other than the ones carrying this id. */
  function Without(rows: seq<Row>, id: string): (kept: seq<Row>)
    ensures forall r :: r in kept <==> r in rows && r.id != id
    ensures |kept| <= |rows|
  {
    if rows == [] then []
    else
      var before, r := Without(rows[..|rows| - 1], id), rows[|rows| - 1];
      if r.id == id then before else before + [r]
  }

  lemma WithoutSnoc(rows: seq<Row>, r: Row, id: string)
    ensures Without(rows + [r], id) == if r.id == id then Without(rows, id) else Without(rows, id) + [r]
  {
    assert (rows + [r])[..|rows|] == rows;
  }

  lemma {:induction false} WithoutAbsent(rows: seq<Row>, id: string)
    requires forall r :: r in rows ==> r.id != id
    ensures Without(rows, id) == rows
  {
    if rows != [] {
      hide Without;
      var before, r := rows[..|rows| - 1], rows[|rows| - 1];
      assert rows == before + [r];
      assert r in rows;
      WithoutAbsent(before, id);
      WithoutSnoc(before, r, id);
    }
  }

  /** Committed spend is never un-counted. */
  function AfterRelease(book: Book, id: string): Book {
    if id in book.committed then book else book.(rows := Without(book.rows, id))
  }

  function Since(rows: seq<Row>, beforeMs: int): (kept: seq<Row>)
    ensures forall r :: r in kept <==> r in rows && r.spend.ms >= beforeMs
    ensures |kept| <= |rows|
  {
    if rows == [] then []
    else
      var before, r := Since(rows[..|rows| - 1], beforeMs), rows[|rows| - 1];
      if r.spend.ms >= beforeMs then before + [r] else before
  }

  function AfterPrune(book: Book, beforeMs: int): Book {
    var rows := Since(book.rows, beforeMs);
    Book(rows, set id | id in book.committed && HasId(rows, id))
  }

  // ---------- When a reservation is made ----------

  /** The rows of the book that a request is measured against, for one window. */
  function Measured(rows: seq<Row>, req: Request, w: Window): set<nat>
    requires w.windowMs.Finite?
  {
    set k | 0 <= k < |rows| && rows[k].scope == req.scope && rows[k].currency == req.currency
      && InWindow(w, rows[k].spend, req.nowMs, req.merchantKey)
  }

  function SumOf(rows: seq<Row>, places: set<nat>): nat {
    if rows == [] then 0
    else SumOf(rows[..|rows| - 1], places) + if |rows| - 1 in places then rows[|rows| - 1].spend.amountMinor else 0
  }

  /** The window leaves room for the request in its own budget. */
  predicate LeavesRoom(rows: seq<Row>, req: Request, w: Window)
    requires WellFormed(w) && UsableAmount(req.amountMinor)
  {
    var places := Measured(rows, req, w);
    && (w.dimension == Some("merchant") ==> req.merchantKey.Some?)
    && (w.capMinor.Some? ==> SumOf(rows, places) + req.amountMinor.value.Floor <= w.capMinor.value.value.Floor)
    && (w.maxCount.Some? ==> |places| + 1 <= w.maxCount.value.value.Floor)
  }

  predicate Alike(rows: seq<Row>, req: Request, w: Window)
    requires w.windowMs.Finite?
  {
    var spends := InScope(rows, req.scope, req.currency);
    && SumOf(rows, Measured(rows, req, w)) == SumOver(spends, Places(w, spends, req.nowMs, req.merchantKey))
    && |Measured(rows, req, w)| == |Places(w, spends, req.nowMs, req.merchantKey)|
  }

  lemma {:induction false} SumOfMore(rows: seq<Row>, places: set<nat>, more: set<nat>)
    requires places <= more && forall k :: k in more && k !in places ==> k >= |rows|
    ensures SumOf(rows, more) == SumOf(rows, places)
  {
    if rows != [] {
      SumOfMore(rows[..|rows| - 1], places, more);
    }
  }

  lemma MeasuredSnoc(rows: seq<Row>, r: Row, req: Request, w: Window)
    requires w.windowMs.Finite?
    ensures |rows| !in Measured(rows, req, w)
    ensures Measured(rows + [r], req, w) == Measured(rows, req, w)
      + if r.scope == req.scope && r.currency == req.currency && InWindow(w, r.spend, req.nowMs, req.merchantKey) then {|rows|} else {}
  {
    hide InWindow;
    var all := rows + [r];
    assert all[|rows|] == r;
    assert forall k :: 0 <= k < |rows| ==> all[k] == rows[k];
  }

  lemma SumOfSnoc(rows: seq<Row>, r: Row, places: set<nat>, more: set<nat>)
    requires places <= more <= places + {|rows|} && |rows| !in places
    ensures SumOf(rows + [r], more) == SumOf(rows, places) + if |rows| in more then r.spend.amountMinor else 0
  {
    assert (rows + [r])[..|rows|] == rows;
    SumOfMore(rows, places, more);
  }

  lemma AlikeSnoc(rows: seq<Row>, r: Row, req: Request, w: Window)
    requires w.windowMs.Finite? && Alike(rows, req, w)
    ensures Alike(rows + [r], req, w)
  {
    hide Measured, Places, InWindow, SumOf, SumOver, InScope;
    var spends := InScope(rows, req.scope, req.currency);
    InScopeSnoc(rows, r, req.scope, req.currency);
    MeasuredSnoc(rows, r, req, w);
    SumOfSnoc(rows, r, Measured(rows, req, w), Measured(rows + [r], req, w));
    if r.scope == req.scope && r.currency == req.currency {
      PlacesSnoc(w, spends, r.spend, req.nowMs, req.merchantKey);
      SumOverSnoc(spends, r.spend, Places(w, spends, req.nowMs, req.merchantKey), Places(w, spends + [r.spend], req.nowMs, req.merchantKey));
    }
  }

  /** Measuring the whole book is measuring the spends of the request's budget. */
  lemma {:induction false} MeasuredAlike(rows: seq<Row>, req: Request, w: Window)
    requires w.windowMs.Finite?
    ensures Alike(rows, req, w)
  {
    if rows == [] {
      assert Measured(rows, req, w) == {} && Places(w, [], req.nowMs, req.merchantKey) == {};
    } else {
      hide Alike;
      assert rows == rows[..|rows| - 1] + [rows[|rows| - 1]];
      MeasuredAlike(rows[..|rows| - 1], req, w);
      AlikeSnoc(rows[..|rows| - 1], rows[|rows| - 1], req, w);
    }
  }

  /** A reservation is made exactly when its id is new, the request is well formed, and every
      window leaves room for it among the rows of its own scope and currency. */
  lemma ReservedIff(book: Book, req: Request)
    ensures ReserveAnswer(book, req).Reserved? <==>
      && (forall k :: 0 <= k < |book.rows| ==> book.rows[k].id != req.reservationId)
      && AllWellFormed(req.windows) && UsableAmount(req.amountMinor)
      && forall k :: 0 <= k < |req.windows| ==> LeavesRoom(book.rows, req, req.windows[k])
  {
    hide WellFormed, InScope, Verdict, LeavesRoom, Blocks, UsableAmount;
    var spends := InScope(book.rows, req.scope, req.currency);
    UsableMeans(req.amountMinor);
    RefusedIff(req.windows, spends, req.amountMinor, req.nowMs, req.merchantKey);
    if AllWellFormed(req.windows) && UsableAmount(req.amountMinor) {
      forall k | 0 <= k < |req.windows|
        ensures LeavesRoom(book.rows, req, req.windows[k]) <==> !Blocks(req.windows[k], spends, req.amountMinor.value.Floor, req.nowMs, req.merchantKey)
      {
        RoomIffNotBlocked(book.rows, req, req.windows[k]);
      }
    }
  }

  lemma UsableMeans(amount: Number)
    ensures UsableAmount(amount) <==> SafeInteger(amount) && amount.value >= 0.0
  {
  }

  lemma RoomIffNotBlocked(rows: seq<Row>, req: Request, w: Window)
    requires WellFormed(w) && UsableAmount(req.amountMinor)
    ensures LeavesRoom(rows, req, w)
      <==> !Blocks(w, InScope(rows, req.scope, req.currency), req.amountMinor.value.Floor, req.nowMs, req.merchantKey)
  {
    hide InScope, Measured, Places, SumOf, SumOver;
    MeasuredAlike(rows, req, w);
  }

  // ---------- Every operation keeps the book well formed ----------

  predicate WellKept(book: Book) {
    DistinctIds(book.rows) && forall id :: id in book.committed ==> HasId(book.rows, id)
  }

  lemma {:induction false} WithoutKeepsOrder(rows: seq<Row>, id: string)
    requires DistinctIds(rows)
    ensures DistinctIds(Without(rows, id))
  {
    if rows != [] {
      WithoutKeepsOrder(rows[..|rows| - 1], id);
    }
  }

  lemma {:induction false} SinceKeepsOrder(rows: seq<Row>, beforeMs: int)
    requires DistinctIds(rows)
    ensures DistinctIds(Since(rows, beforeMs))
  {
    if rows != [] {
      SinceKeepsOrder(rows[..|rows| - 1], beforeMs);
    }
  }

  datatype Op = DoReserve(req: Request) | DoCommit(id: string) | DoRelease(id: string) | DoPrune(beforeMs: int)

  function Apply(book: Book, op: Op): Book {
    match op
    case DoReserve(req) => AfterReserve(book, req)
    case DoCommit(id) => AfterCommit(book, id)
    case DoRelease(id) => AfterRelease(book, id)
    case DoPrune(beforeMs) => AfterPrune(book, beforeMs)
  }

  lemma ApplyKeeps(book: Book, op: Op)
    requires WellKept(book)
    ensures WellKept(Apply(book, op))
  {
    match op
    case DoReserve(req) =>
      var next := AfterReserve(book, req);
      assert forall id :: HasId(book.rows, id) ==> HasId(next.rows, id) by {
        forall id | HasId(book.rows, id)
          ensures HasId(next.rows, id)
        {
          var i :| 0 <= i < |book.rows| && book.rows[i].id == id;
          assert next.rows[i].id == id;
        }
      }
    case DoCommit(id) =>
    case DoRelease(id) =>
      WithoutKeepsOrder(book.rows, id);
      forall other | other in book.committed && id !in book.committed
        ensures HasId(Without(book.rows, id), other)
      {
      }
    case DoPrune(beforeMs) =>
      SinceKeepsOrder(book.rows, beforeMs);
  }

  /** The book after a run of operations from nothing. */
  function BookAfter(ops: seq<Op>): Book {
    if ops == [] then EMPTY else Apply(BookAfter(ops[..|ops| - 1]), ops[|ops| - 1])
  }

  // ---------- Rolling caps ----------

  /** The window would have let this spend in after the ones before it. */
  predicate Fits(w: Window, before: seq<Spend>, s: Spend)
    requires WellFormed(w)
  {
    && (PerMerchant(w) ==> s.merchantKey.Some?)
    && !OverCap(w, Spent(w, before, s.ms, s.merchantKey), s.amountMinor)
    && !OverCount(w, Tally(w, before, s.ms, s.merchantKey))
  }

  /** Each spend fitted after the ones recorded before it, whatever their times. */
  predicate Rolling(w: Window, spends: seq<Spend>)
    requires WellFormed(w)
  {
    spends == [] || (Rolling(w, spends[..|spends| - 1]) && Fits(w, spends[..|spends| - 1], spends[|spends| - 1]))
  }

  lemma {:induction false} ReservedFits(windows: seq<Window>, w: Window, rows: seq<Spend>, s: Spend)
    requires AllWellFormed(windows) && w in windows
    requires FirstRefusal(windows, rows, s.amountMinor, s.ms, s.merchantKey).None?
    ensures WellFormed(w) && Fits(w, rows, s)
  {
    hide Spent, Tally, WellFormed;
    if w != windows[0] {
      ReservedFits(windows[1..], w, rows, s);
    }
  }

  /** Rows of `kept` come from `rows` in order: dropping rows only lowers every sum. */
  ghost predicate Thinned(w: Window, kept: seq<Spend>, rows: seq<Spend>)
    requires WellFormed(w)
  {
    forall nowMs, key :: NoMore(w, kept, rows, nowMs, key)
  }

  predicate NoMore(w: Window, kept: seq<Spend>, rows: seq<Spend>, nowMs: int, key: Option<string>)
    requires w.windowMs.Finite?
  {
    Spent(w, kept, nowMs, key) <= Spent(w, rows, nowMs, key) && Tally(w, kept, nowMs, key) <= Tally(w, rows, nowMs, key)
  }

  lemma ThinnedSkip(w: Window, kept: seq<Spend>, rows: seq<Spend>, s: Spend)
    requires WellFormed(w) && Thinned(w, kept, rows)
    ensures Thinned(w, kept, rows + [s])
  {
    forall nowMs, key
      ensures NoMore(w, kept, rows + [s], nowMs, key)
    {
      assert NoMore(w, kept, rows, nowMs, key);
      assert (rows + [s])[..|rows|] == rows;
    }
  }

  lemma ThinnedKeep(w: Window, kept: seq<Spend>, rows: seq<Spend>, s: Spend)
    requires WellFormed(w) && Thinned(w, kept, rows)
    ensures Thinned(w, kept + [s], rows + [s])
  {
    forall nowMs, key
      ensures NoMore(w, kept + [s], rows + [s], nowMs, key)
    {
      assert NoMore(w, kept, rows, nowMs, key);
      assert (rows + [s])[..|rows|] == rows && (kept + [s])[..|kept|] == kept;
    }
  }

  lemma FitsThinned(w: Window, kept: seq<Spend>, rows: seq<Spend>, s: Spend)
    requires WellFormed(w) && Thinned(w, kept, rows) && Fits(w, rows, s)
    ensures Fits(w, kept, s)
  {
    assert NoMore(w, kept, rows, s.ms, s.merchantKey);
  }

  ghost predicate StillRolling(w: Window, kept: seq<Spend>, rows: seq<Spend>)
    requires WellFormed(w)
  {
    Rolling(w, kept) && Thinned(w, kept, rows)
  }

  /** One row at a time: what a filter keeps of a rolling list is rolling. */
  lemma StillRollingStep(w: Window, kept: seq<Spend>, rows: seq<Spend>, s: Spend, keep: bool)
    requires WellFormed(w) && StillRolling(w, kept, rows) && Fits(w, rows, s)
    ensures StillRolling(w, if keep then kept + [s] else kept, rows + [s])
  {
    hide WellFormed, Thinned, Fits;
    if keep {
      ThinnedKeep(w, kept, rows, s);
      FitsThinned(w, kept, rows, s);
      assert (kept + [s])[..|kept|] == kept;
    } else {
      ThinnedSkip(w, kept, rows, s);
    }
  }

  lemma InScopeSnoc(rows: seq<Row>, r: Row, scope: string, currency: string)
    ensures InScope(rows + [r], scope, currency) ==
      if r.scope == scope && r.currency == currency then InScope(rows, scope, currency) + [r.spend]
      else InScope(rows, scope, currency)
  {
    assert (rows + [r])[..|rows|] == rows;
  }

  lemma RollingSnoc(w: Window, spends: seq<Spend>, s: Spend)
    requires WellFormed(w)
    ensures Rolling(w, spends + [s]) <==> Rolling(w, spends) && Fits(w, spends, s)
  {
    assert (spends + [s])[..|spends|] == spends;
  }

  lemma {:induction false} ReleaseKeepsRolling(w: Window, rows: seq<Row>, id: string, scope: string, currency: string)
    requires WellFormed(w) && Rolling(w, InScope(rows, scope, currency))
    ensures StillRolling(w, InScope(Without(rows, id), scope, currency), InScope(rows, scope, currency))
  {
    hide WellFormed, Fits, Thinned, Rolling, InScope, SpendWindow.Spent, SpendWindow.Tally;
    if rows == [] {
      NothingRolls(w, scope, currency);
    } else {
      var before, r := rows[..|rows| - 1], rows[|rows| - 1];
      assert rows == before + [r];
      InScopeSnoc(before, r, scope, currency);
      InScopeSnoc(Without(before, id), r, scope, currency);
      if r.scope == scope && r.currency == currency {
        RollingSnoc(w, InScope(before, scope, currency), r.spend);
        ReleaseKeepsRolling(w, before, id, scope, currency);
        StillRollingStep(w, InScope(Without(before, id), scope, currency), InScope(before, scope, currency), r.spend, r.id != id);
      } else {
        ReleaseKeepsRolling(w, before, id, scope, currency);
      }
    }
  }

  lemma NothingRolls(w: Window, scope: string, currency: string)
    requires WellFormed(w)
    ensures InScope([], scope, currency) == [] && StillRolling(w, [], [])
  {
    hide WellFormed;
  }

  lemma {:induction false} PruneKeepsRolling(w: Window, rows: seq<Row>, beforeMs: int, scope: string, currency: string)
    requires WellFormed(w) && Rolling(w, InScope(rows, scope, currency))
    ensures StillRolling(w, InScope(Since(rows, beforeMs), scope, currency), InScope(rows, scope, currency))
  {
    hide WellFormed, Fits, Thinned, Rolling, InScope, SpendWindow.Spent, SpendWindow.Tally;
    if rows == [] {
      NothingRolls(w, scope, currency);
    } else {
      var before, r := rows[..|rows| - 1], rows[|rows| - 1];
      assert rows == before + [r];
      InScopeSnoc(before, r, scope, currency);
      InScopeSnoc(Since(before, beforeMs), r, scope, currency);
      if r.scope == scope && r.currency == currency {
        RollingSnoc(w, InScope(before, scope, currency), r.spend);
        PruneKeepsRolling(w, before, beforeMs, scope, currency);
        StillRollingStep(w, InScope(Since(before, beforeMs), scope, currency), InScope(before, scope, currency), r.spend, r.spend.ms >= beforeMs);
      } else {
        PruneKeepsRolling(w, before, beforeMs, scope, currency);
      }
    }
  }

  /** Every reserve of this budget is checked against the window. */
  predicate Carries(op: Op, scope: string, currency: string, w: Window) {
    op.DoReserve? && op.req.scope == scope && op.req.currency == currency ==> w in op.req.windows
  }

  lemma ReserveKeepsRolling(book: Book, req: Request, scope: string, currency: string, w: Window)
    requires WellFormed(w) && Carries(DoReserve(req), scope, currency, w) && Rolling(w, InScope(book.rows, scope, currency))
    ensures Rolling(w, InScope(AfterReserve(book, req).rows, scope, currency))
  {
    hide WellFormed, Fits, Rolling, InScope;
    if ReserveAnswer(book, req).Reserved? {
      var r := NewRow(req);
      InScopeSnoc(book.rows, r, scope, currency);
      if req.scope == scope && req.currency == currency {
        var inScope := InScope(book.rows, scope, currency);
        ReservedFits(req.windows, w, inScope, r.spend);
        RollingSnoc(w, inScope, r.spend);
      }
    }
  }

  lemma ApplyKeepsRolling(book: Book, op: Op, scope: string, currency: string, w: Window)
    requires WellFormed(w) && Carries(op, scope, currency, w) && Rolling(w, InScope(book.rows, scope, currency))
    ensures Rolling(w, InScope(Apply(book, op).rows, scope, currency))
  {
    hide WellFormed, Fits, Rolling, InScope, Thinned, AfterReserve;
    match op
    case DoReserve(req) =>
      ReserveKeepsRolling(book, req, scope, currency, w);
    case DoCommit(id) =>
    case DoRelease(id) =>
      ReleaseKeepsRolling(w, book.rows, id, scope, currency);
    case DoPrune(beforeMs) =>
      PruneKeepsRolling(w, book.rows, beforeMs, scope, currency);
  }

  predicate Carried(ops: seq<Op>, scope: string, currency: string, w: Window) {
    forall i :: 0 <= i < |ops| ==> Carries(ops[i], scope, currency, w)
  }

  lemma {:induction false} RunIsRolling(ops: seq<Op>, scope: string, currency: string, w: Window)
    requires WellFormed(w) && Carried(ops, scope, currency, w)
    ensures Rolling(w, InScope(BookAfter(ops).rows, scope, currency))
  {
    hide WellFormed, Fits, Apply, Carries;
    if ops != [] {
      RunIsRolling(ops[..|ops| - 1], scope, currency, w);
      ApplyKeepsRolling(BookAfter(ops[..|ops| - 1]), ops[|ops| - 1], scope, currency, w);
    }
  }

  // ---------- What rolling means at every instant ----------

  /** The spend is in (t - windowMs, t] and belongs to the merchant, when the window asks. */
  predicate Within(w: Window, s: Spend, t: real, merchant: string)
    requires w.windowMs.Finite?
  {
    && t - w.windowMs.value < s.ms as real <= t
    && (PerMerchant(w) && s.merchantKey.Some? ==> s.merchantKey.value == merchant)
  }

  function TotalWithin(w: Window, spends: seq<Spend>, t: real, merchant: string): nat
    requires w.windowMs.Finite?
  {
    if spends == [] then 0 else
    TotalWithin(w, spends[..|spends| - 1], t, merchant)
      + (if Within(w, spends[|spends| - 1], t, merchant) then spends[|spends| - 1].amountMinor else 0)
  }

  function CountWithin(w: Window, spends: seq<Spend>, t: real, merchant: string): nat
    requires w.windowMs.Finite?
  {
    if spends == [] then 0 else
    CountWithin(w, spends[..|spends| - 1], t, merchant)
      + (if Within(w, spends[|spends| - 1], t, merchant) then 1 else 0)
  }

  lemma {:induction false} WithinIsCounted(w: Window, spends: seq<Spend>, t: real, merchant: string, s: Spend)
    requires w.windowMs.Finite? && Within(w, s, t, merchant) && (PerMerchant(w) ==> s.merchantKey.Some?)
    ensures TotalWithin(w, spends, t, merchant) <= Spent(w, spends, s.ms, s.merchantKey)
    ensures CountWithin(w, spends, t, merchant) <= Tally(w, spends, s.ms, s.merchantKey)
  {
    if spends != [] {
      WithinIsCounted(w, spends[..|spends| - 1], t, merchant, s);
    }
  }

  predicate CapHolds(w: Window, spends: seq<Spend>, t: real, merchant: string)
    requires WellFormed(w)
  {
    && (w.capMinor.Some? ==> TotalWithin(w, spends, t, merchant) <= Cap(w))
    && (w.maxCount.Some? ==> CountWithin(w, spends, t, merchant) <= MaxCount(w))
  }

  lemma {:induction false} RollingMeansCap(w: Window, spends: seq<Spend>, t: real, merchant: string)
    requires WellFormed(w) && Rolling(w, spends)
    ensures CapHolds(w, spends, t, merchant)
  {
    if spends != [] {
      var n, last := |spends| - 1, spends[|spends| - 1];
      RollingMeansCap(w, spends[..n], t, merchant);
      if Within(w, last, t, merchant) {
        WithinIsCounted(w, spends[..n], t, merchant, last);
      }
    }
  }

  /** After any run, in any order of times, no interval of the window's length ever holds
      more than the window allows. */
  lemma RollingCap(ops: seq<Op>, scope: string, currency: string, w: Window, t: real, merchant: string)
    requires WellFormed(w) && Carried(ops, scope, currency, w)
    ensures CapHolds(w, InScope(BookAfter(ops).rows, scope, currency), t, merchant)
  {
    RunIsRolling(ops, scope, currency, w);
    RollingMeansCap(w, InScope(BookAfter(ops).rows, scope, currency), t, merchant);
  }
}

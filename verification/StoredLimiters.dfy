/** The file and SQL limiters: keyed tables whose rows come back in any order. */
module StoredLimiters {
  import opened Prelude
  import opened SpendWindow
  import opened SpendBook
  import opened SpendLimiter

  datatype Stored = Stored(row: Row, state: State)

  /** The table holds exactly the rows of the book, with their states. */
  ghost predicate Mirrors(table: map<string, Stored>, book: Book) {
    && WellKept(book)
    && (forall id :: id in table <==> HasId(book.rows, id))
    && (forall id :: id in table ==> Mirrored(table[id], id, book))
  }

  predicate Mirrored(stored: Stored, id: string, book: Book) {
    stored.row in book.rows && stored.row.id == id && stored.state == StateOf(book, id)
  }

  // ---------- Selecting rows, in whatever order they come ----------

  /** The spends of the rows a filter keeps, leaving out the ids still to be visited. */
  function Matching(rows: seq<Row>, keep: Row -> bool, todo: set<string>): seq<Spend> {
    if rows == [] then []
    else
      var before, r := Matching(rows[..|rows| - 1], keep, todo), rows[|rows| - 1];
      if keep(r) && r.id !in todo then before + [r.spend] else before
  }

  lemma {:induction false} MatchingSkips(rows: seq<Row>, keep: Row -> bool, todo: set<string>, id: string)
    requires forall r :: r in rows ==> r.id != id
    ensures Matching(rows, keep, todo - {id}) == Matching(rows, keep, todo)
  {
    if rows != [] {
      assert rows[|rows| - 1] in rows;
      MatchingSkips(rows[..|rows| - 1], keep, todo, id);
    }
  }

  lemma {:induction false} MatchingNext(rows: seq<Row>, keep: Row -> bool, todo: set<string>, row: Row)
    requires DistinctIds(rows) && row in rows && row.id in todo
    ensures multiset(Matching(rows, keep, todo - {row.id}))
      == multiset(Matching(rows, keep, todo)) + if keep(row) then multiset{row.spend} else multiset{}
  {
    var before, last := rows[..|rows| - 1], rows[|rows| - 1];
    DistinctParts(rows);
    if last == row {
      MatchingSkips(before, keep, todo, row.id);
    } else {
      assert row in before;
      MatchingNext(before, keep, todo, row);
    }
  }

  lemma {:induction false} MatchingNone(rows: seq<Row>, keep: Row -> bool, todo: set<string>)
    requires forall r :: r in rows ==> r.id in todo
    ensures Matching(rows, keep, todo) == []
  {
    if rows != [] {
      assert rows[|rows| - 1] in rows;
      MatchingNone(rows[..|rows| - 1], keep, todo);
    }
  }

  lemma RowsHaveIds(table: map<string, Stored>, book: Book)
    requires Mirrors(table, book)
    ensures forall r :: r in book.rows ==> r.id in table
  {
    forall r | r in book.rows
      ensures HasId(book.rows, r.id)
    {
      var i :| 0 <= i < |book.rows| && book.rows[i] == r;
    }
  }

  method Select(table: map<string, Stored>, keep: Row -> bool, ghost book: Book) returns (spends: seq<Spend>)
    requires Mirrors(table, book)
    ensures multiset(spends) == multiset(Matching(book.rows, keep, {}))
  {
    hide Matching, HasId, DistinctIds;
    RowsHaveIds(table, book);
    MatchingNone(book.rows, keep, table.Keys);
    spends := [];
    var todo := table.Keys;
    while todo != {}
      invariant todo <= table.Keys
      invariant multiset(spends) == multiset(Matching(book.rows, keep, todo))
      decreases todo
    {
      var id :| id in todo;
      assert Mirrored(table[id], id, book);
      MatchingNext(book.rows, keep, todo, table[id].row);
      if keep(table[id].row) {
        spends := spends + [table[id].row.spend];
      }
      todo := todo - {id};
    }
  }

  lemma {:induction false} MatchingKey(rows: seq<Row>, keep: Row -> bool, scope: string, currency: string)
    requires forall r :: keep(r) <==> KeyOf(r) == ScopeKey(scope, currency)
    ensures Matching(rows, keep, {}) == InScope(rows, scope, currency)
  {
    hide ScopeKey;
    if rows != [] {
      var r := rows[|rows| - 1];
      MatchingKey(rows[..|rows| - 1], keep, scope, currency);
      ScopeKeyIsInjective(r.scope, r.currency, scope, currency);
    }
  }

  lemma {:induction false} MatchingRecent(rows: seq<Row>, keep: Row -> bool, scope: string, currency: string, since: real)
    requires forall r :: keep(r) <==> r.scope == scope && r.currency == currency && r.spend.ms as real > since
    ensures Matching(rows, keep, {}) == Recent(InScope(rows, scope, currency), since)
  {
    if rows != [] {
      var r := rows[|rows| - 1];
      MatchingRecent(rows[..|rows| - 1], keep, scope, currency, since);
      var before := InScope(rows[..|rows| - 1], scope, currency);
      assert (before + [r.spend])[..|before|] == before;
    }
  }

  // ---------- Updates of the table ----------

  lemma MirrorsReserve(table: map<string, Stored>, book: Book, req: Request)
    requires Mirrors(table, book) && ReserveAnswer(book, req).Reserved?
    ensures UsableAmount(req.amountMinor)
    ensures Mirrors(table[req.reservationId := Stored(NewRow(req), Held)], AfterReserve(book, req))
  {
    hide DistinctIds, InScope, Verdict;
    ApplyKeeps(book, DoReserve(req));
    assert VerdictIn(book, req).None?;
    var next := AfterReserve(book, req);
    forall id
      ensures HasId(next.rows, id) <==> HasId(book.rows, id) || id == req.reservationId
    {
      if HasId(book.rows, id) {
        var i :| 0 <= i < |book.rows| && book.rows[i].id == id;
        assert next.rows[i].id == id;
      }
      assert next.rows[|book.rows|].id == req.reservationId;
    }
    assert forall id :: id in table ==> Mirrored(table[id], id, book);
  }

  lemma MirrorsCommit(table: map<string, Stored>, book: Book, id: string)
    requires Mirrors(table, book)
    ensures Mirrors(if id in table then table[id := table[id].(state := Committed)] else table, AfterCommit(book, id))
  {
    hide DistinctIds, HasId;
    ApplyKeeps(book, DoCommit(id));
    assert forall other :: other in table ==> Mirrored(table[other], other, book);
  }

  lemma MirrorsRelease(table: map<string, Stored>, book: Book, id: string)
    requires Mirrors(table, book)
    ensures Mirrors(if id in table && table[id].state == Held then table - {id} else table, AfterRelease(book, id))
  {
    hide DistinctIds, HasId, Without;
    ApplyKeeps(book, DoRelease(id));
    LookedUp(table, book, id);
    if id in table && table[id].state == Held {
      forall other
        ensures HasId(Without(book.rows, id), other) <==> HasId(book.rows, other) && other != id
      {
        WithoutHasId(book.rows, id, other);
      }
      assert forall other :: other in table ==> Mirrored(table[other], other, book);
    } else if id !in table {
      RowsHaveIds(table, book);
      WithoutAbsent(book.rows, id);
    }
  }

  lemma WithoutHasId(rows: seq<Row>, id: string, other: string)
    ensures HasId(Without(rows, id), other) <==> HasId(rows, other) && other != id
  {
    if HasId(Without(rows, id), other) {
      var i :| 0 <= i < |Without(rows, id)| && Without(rows, id)[i].id == other;
      assert Without(rows, id)[i] in Without(rows, id);
    }
  }

  lemma LookedUp(table: map<string, Stored>, book: Book, id: string)
    requires Mirrors(table, book)
    ensures id in table <==> HasId(book.rows, id)
    ensures id in table ==> table[id].state == StateOf(book, id)
  {
    if id in table {
      assert Mirrored(table[id], id, book);
    }
  }

  function Surviving(table: map<string, Stored>, beforeMs: int): map<string, Stored> {
    map id | id in table && table[id].row.spend.ms >= beforeMs :: table[id]
  }

  lemma MirrorsPrune(table: map<string, Stored>, book: Book, beforeMs: int)
    requires Mirrors(table, book)
    ensures Mirrors(Surviving(table, beforeMs), AfterPrune(book, beforeMs))
  {
    hide DistinctIds;
    ApplyKeeps(book, DoPrune(beforeMs));
    var rows, kept := book.rows, Since(book.rows, beforeMs);
    forall id
      ensures HasId(kept, id) <==> id in table && table[id].row.spend.ms >= beforeMs
    {
      SurvivesIff(table, book, beforeMs, id);
    }
    assert forall id :: id in table ==> Mirrored(table[id], id, book);
  }

  lemma SurvivesIff(table: map<string, Stored>, book: Book, beforeMs: int, id: string)
    requires Mirrors(table, book)
    ensures HasId(Since(book.rows, beforeMs), id) <==> id in table && table[id].row.spend.ms >= beforeMs
  {
    var kept := Since(book.rows, beforeMs);
    if id in table && table[id].row.spend.ms >= beforeMs {
      assert Mirrored(table[id], id, book);
      assert table[id].row in kept;
      var k :| 0 <= k < |kept| && kept[k] == table[id].row;
      assert HasId(kept, id);
    }
    if HasId(kept, id) {
      var i :| 0 <= i < |kept| && kept[i].id == id;
      assert kept[i] in kept;
      RowsHaveIds(table, book);
      assert Mirrored(table[id], id, book);
    }
  }

  // ---------- The file limiter ----------

  /** `saved` is the file's content; every operation is one critical section of its mutex. */
  class FileSpendLimiter {
    var saved: map<string, Stored>
    ghost var book: Book

    ghost predicate Valid()
      reads this
    {
      Mirrors(saved, book)
    }

    constructor ()
      ensures Valid() && book == EMPTY
    {
      saved, book := map[], EMPTY;
    }

    method Reserve(req: Request) returns (result: ReserveResult)
      requires Valid()
      modifies this
      ensures Valid()
      ensures result == ReserveAnswer(old(book), req)
      ensures book == AfterReserve(old(book), req)
    {
      hide HasId, DistinctIds, InScope, Verdict, Matching, ScopeKey, Mirrors;
      var data := saved;
      LookedUp(data, book, req.reservationId);
      if req.reservationId in data {
        return Replayed(data[req.reservationId].state);
      }
      var key := ScopeKey(req.scope, req.currency);
      var keep := (r: Row) => KeyOf(r) == key;
      var inScope := Select(data, keep, book);
      MatchingKey(book.rows, keep, req.scope, req.currency);
      VerdictOfPermutation(req.windows, inScope, InScope(book.rows, req.scope, req.currency), req.amountMinor, req.nowMs, req.merchantKey);
      var violated := FirstViolatedWindow(req.windows, inScope, req.amountMinor, req.nowMs, req.merchantKey);
      if violated.Some? {
        return Refused(violated.value);
      }
      MirrorsReserve(data, book, req);
      saved := data[req.reservationId := Stored(NewRow(req), Held)];
      book := AfterReserve(book, req);
      result := Reserved;
    }

    method Commit(id: string)
      requires Valid()
      modifies this
      ensures Valid() && book == AfterCommit(old(book), id)
    {
      hide Mirrors, AfterCommit;
      MirrorsCommit(saved, book, id);
      book := AfterCommit(book, id);
      var data := saved;
      if id !in data || data[id].state == Committed {
        if id in data {
          assert data[id := data[id].(state := Committed)] == data;
        }
        return;
      }
      saved := data[id := data[id].(state := Committed)];
    }

    method Release(id: string)
      requires Valid()
      modifies this
      ensures Valid() && book == AfterRelease(old(book), id)
    {
      hide Mirrors, AfterRelease;
      MirrorsRelease(saved, book, id);
      book := AfterRelease(book, id);
      var data := saved;
      if id !in data || data[id].state == Committed {
        return;
      }
      saved := data - {id};
    }

    method PruneBefore(beforeMs: int) returns (removed: nat)
      requires Valid()
      modifies this
      ensures Valid() && book == AfterPrune(old(book), beforeMs)
      ensures removed == |old(saved)| - |saved|
    {
      hide Mirrors, AfterPrune;
      MirrorsPrune(saved, book, beforeMs);
      book := AfterPrune(book, beforeMs);
      var data := saved;
      removed := 0;
      var todo := saved.Keys;
      while todo != {}
        invariant todo <= saved.Keys
        invariant forall id :: id in data <==> id in saved && (id in todo || saved[id].row.spend.ms >= beforeMs)
        invariant forall id :: id in data ==> data[id] == saved[id]
        invariant removed == |saved| - |data| && (removed == 0 ==> data == saved)
        decreases todo
      {
        var id :| id in todo;
        if saved[id].row.spend.ms < beforeMs {
          assert data == (data - {id})[id := data[id]];
          data := data - {id};
          removed := removed + 1;
        }
        todo := todo - {id};
      }
      assert data == Surviving(saved, beforeMs);
      if removed > 0 {
        saved := data;
      }
    }
  }

  // ---------- The SQL limiter ----------

  /** What the SQL limiter answers: a pre-check on no rows decides malformed windows first. */
  function SqlVerdict(windows: seq<Window>, rows: seq<Spend>, amount: Number, nowMs: int, key: Option<string>): Option<string> {
    if Verdict(windows, [], amount, nowMs, key) == Some(WINDOW_INVALID) then Some(WINDOW_INVALID)
    else Verdict(windows, rows, amount, nowMs, key)
  }

  function SqlAnswer(book: Book, req: Request): ReserveResult {
    if HasId(book.rows, req.reservationId) then Replayed(StateOf(book, req.reservationId))
    else
      var rows := InScope(book.rows, req.scope, req.currency);
      var violated := SqlVerdict(req.windows, rows, req.amountMinor, req.nowMs, req.merchantKey);
      if violated.Some? then Refused(violated.value) else Reserved
  }

  /** `table` is the relation; every operation is one transaction under the budget's lock. */
  class PostgresSpendLimiter {
    var table: map<string, Stored>
    ghost var book: Book

    ghost predicate Valid()
      reads this
    {
      Mirrors(table, book)
    }

    constructor ()
      ensures Valid() && book == EMPTY
    {
      table, book := map[], EMPTY;
    }

    method Reserve(req: Request) returns (result: ReserveResult)
      requires Valid()
      modifies this
      ensures Valid()
      ensures result == SqlAnswer(old(book), req)
      ensures book == AfterReserve(old(book), req)
    {
      hide HasId, DistinctIds, InScope, Verdict, Matching, ScopeKey, Mirrors, Recent;
      LookedUp(table, book, req.reservationId);
      if req.reservationId in table {
        return Replayed(table[req.reservationId].state);
      }
      SqlRefusesAlike(book, req);
      var configViolation := FirstViolatedWindow(req.windows, [], req.amountMinor, req.nowMs, req.merchantKey);
      if configViolation == Some(WINDOW_INVALID) {
        return Refused(WINDOW_INVALID);
      }
      MalformedRefuses(req.windows, [], req.amountMinor, req.nowMs, req.merchantKey);
      var widest := WidestWindow(req.windows);
      var existing: seq<Spend> := [];
      if |req.windows| > 0 {
        var since := req.nowMs as real - widest;
        var keep := (r: Row) => r.scope == req.scope && r.currency == req.currency && r.spend.ms as real > since;
        existing := Select(table, keep, book);
        MatchingRecent(book.rows, keep, req.scope, req.currency, since);
        VerdictOfPermutation(req.windows, existing, Recent(InScope(book.rows, req.scope, req.currency), since), req.amountMinor, req.nowMs, req.merchantKey);
        VerdictOfRecent(req.windows, InScope(book.rows, req.scope, req.currency), req.amountMinor, req.nowMs, req.merchantKey);
      } else {
        NoWindows(existing, InScope(book.rows, req.scope, req.currency), req);
      }
      var violated := FirstViolatedWindow(req.windows, existing, req.amountMinor, req.nowMs, req.merchantKey);
      if violated.Some? {
        return Refused(violated.value);
      }
      MirrorsReserve(table, book, req);
      table := table[req.reservationId := Stored(NewRow(req), Held)];
      book := AfterReserve(book, req);
      result := Reserved;
    }

    method Commit(id: string)
      requires Valid()
      modifies this
      ensures Valid() && book == AfterCommit(old(book), id)
    {
      hide Mirrors, AfterCommit;
      MirrorsCommit(table, book, id);
      book := AfterCommit(book, id);
      if id in table {
        table := table[id := table[id].(state := Committed)];
      }
    }

    method Release(id: string)
      requires Valid()
      modifies this
      ensures Valid() && book == AfterRelease(old(book), id)
    {
      hide Mirrors, AfterRelease;
      MirrorsRelease(table, book, id);
      book := AfterRelease(book, id);
      if id in table && table[id].state == Held {
        table := table - {id};
      }
    }

    method PruneBefore(beforeMs: int) returns (removed: int)
      requires Valid()
      modifies this
      ensures Valid() && book == AfterPrune(old(book), beforeMs)
      ensures removed == |old(table)| - |table|
    {
      hide Mirrors, AfterPrune;
      MirrorsPrune(table, book, beforeMs);
      book := AfterPrune(book, beforeMs);
      var kept := Surviving(table, beforeMs);
      removed := |table| - |kept|;
      table := kept;
    }
  }

  method WidestWindow(windows: seq<Window>) returns (widest: real)
    requires AllWellFormed(windows)
    ensures widest == Widest(windows)
  {
    widest := 0.0;
    var i := 0;
    while i < |windows|
      invariant 0 <= i <= |windows|
      invariant widest == Widest(windows[..i])
    {
      assert WellFormed(windows[i]);
      assert windows[..i + 1][..i] == windows[..i];
      widest := if windows[i].windowMs.value > widest then windows[i].windowMs.value else widest;
      i := i + 1;
    }
    assert windows[..|windows|] == windows;
  }

  lemma MalformedRefuses(windows: seq<Window>, rows: seq<Spend>, amount: Number, nowMs: int, key: Option<string>)
    requires Verdict(windows, rows, amount, nowMs, key) != Some(WINDOW_INVALID)
    ensures AllWellFormed(windows)
  {
  }

  lemma NoWindows(a: seq<Spend>, b: seq<Spend>, req: Request)
    requires req.windows == []
    ensures Verdict(req.windows, a, req.amountMinor, req.nowMs, req.merchantKey)
      == Verdict(req.windows, b, req.amountMinor, req.nowMs, req.merchantKey)
  {
  }

  // ---------- How far the SQL limiter agrees with the others ----------

  /** A window that refuses on no rows refuses on any rows, for the same reason. */
  lemma {:induction false} EmptyRefusalStays(windows: seq<Window>, rows: seq<Spend>, amount: Amount, nowMs: int, key: Option<string>)
    requires AllWellFormed(windows) && FirstRefusal(windows, [], amount, nowMs, key).Some?
    ensures FirstRefusal(windows, rows, amount, nowMs, key).Some?
  {
    hide WellFormed;
    if Refusal(windows[0], [], amount, nowMs, key).None? {
      EmptyRefusalStays(windows[1..], rows, amount, nowMs, key);
    }
  }

  /** Every reserve is allowed or refused alike, so the books agree after any run. */
  lemma SqlRefusesAlike(book: Book, req: Request)
    ensures SqlAnswer(book, req).Refused? <==> ReserveAnswer(book, req).Refused?
    ensures !SqlAnswer(book, req).Refused? ==> SqlAnswer(book, req) == ReserveAnswer(book, req)
  {
    hide WellFormed, FirstRefusal;
    var rows := InScope(book.rows, req.scope, req.currency);
    if AllWellFormed(req.windows) && UsableAmount(req.amountMinor)
       && FirstRefusal(req.windows, [], req.amountMinor.value.Floor, req.nowMs, req.merchantKey).Some? {
      EmptyRefusalStays(req.windows, rows, req.amountMinor.value.Floor, req.nowMs, req.merchantKey);
    }
  }

  function Codes(windows: seq<Window>): seq<string> {
    seq(|windows|, i requires 0 <= i < |windows| => windows[i].code)
  }

  /** Wherever an operator names a window like the malformed-window code, all before it are named so too. */
  predicate CodesInOrder(codes: seq<string>) {
    forall i, j :: 0 <= i < j < |codes| && codes[j] == WINDOW_INVALID ==> codes[i] == WINDOW_INVALID
  }

  predicate SameCode(windows: seq<Window>, rows: seq<Spend>, amount: Number, nowMs: int, key: Option<string>) {
    SqlVerdict(windows, rows, amount, nowMs, key) == Verdict(windows, rows, amount, nowMs, key)
  }

  ghost predicate AlwaysSameCode(codes: seq<string>) {
    forall windows, rows, amount, nowMs, key :: Codes(windows) == codes ==> SameCode(windows, rows, amount, nowMs, key)
  }

  /** The refusal codes agree, for every window configuration with these codes, exactly when
      the codes are in order. */
  lemma SameCodeIffInOrder(codes: seq<string>)
    ensures AlwaysSameCode(codes) <==> CodesInOrder(codes)
  {
    hide SameCode, Codes;
    if CodesInOrder(codes) {
      forall windows, rows, amount, nowMs, key | Codes(windows) == codes
        ensures SameCode(windows, rows, amount, nowMs, key)
      {
        InOrderSameCode(windows, rows, amount, nowMs, key);
      }
    } else {
      var i, j :| 0 <= i < j < |codes| && codes[j] == WINDOW_INVALID && codes[i] != WINDOW_INVALID;
      OutOfOrderDiffers(codes, i, j);
    }
  }

  lemma {:induction false} OrderedRefusal(windows: seq<Window>, rows: seq<Spend>, amount: Amount, nowMs: int, key: Option<string>)
    requires AllWellFormed(windows) && CodesInOrder(Codes(windows))
    requires FirstRefusal(windows, [], amount, nowMs, key) == Some(WINDOW_INVALID)
    ensures FirstRefusal(windows, rows, amount, nowMs, key) == Some(WINDOW_INVALID)
  {
    hide WellFormed;
    if Refusal(windows[0], [], amount, nowMs, key).None? {
      FirstRefuserHasCode(windows[1..], amount, nowMs, key);
      var j :| 0 <= j < |windows[1..]| && windows[1..][j].code == WINDOW_INVALID;
      assert Codes(windows)[j + 1] == WINDOW_INVALID;
      assert Codes(windows)[0] == WINDOW_INVALID;
      assert Codes(windows[1..]) == Codes(windows)[1..];
      OrderedRefusal(windows[1..], rows, amount, nowMs, key);
    }
  }

  lemma {:induction false} FirstRefuserHasCode(windows: seq<Window>, amount: Amount, nowMs: int, key: Option<string>)
    requires AllWellFormed(windows) && FirstRefusal(windows, [], amount, nowMs, key) == Some(WINDOW_INVALID)
    ensures exists j :: 0 <= j < |windows| && windows[j].code == WINDOW_INVALID
  {
    hide WellFormed;
    if Refusal(windows[0], [], amount, nowMs, key).None? {
      FirstRefuserHasCode(windows[1..], amount, nowMs, key);
      var j :| 0 <= j < |windows[1..]| && windows[1..][j].code == WINDOW_INVALID;
      assert windows[j + 1].code == WINDOW_INVALID;
    } else {
      assert windows[0].code == WINDOW_INVALID;
    }
  }

  lemma InOrderSameCode(windows: seq<Window>, rows: seq<Spend>, amount: Number, nowMs: int, key: Option<string>)
    requires CodesInOrder(Codes(windows))
    ensures SameCode(windows, rows, amount, nowMs, key)
  {
    hide WellFormed, FirstRefusal, CodesInOrder;
    if AllWellFormed(windows) && UsableAmount(amount)
       && FirstRefusal(windows, [], amount.value.Floor, nowMs, key) == Some(WINDOW_INVALID) {
      OrderedRefusal(windows, rows, amount.value.Floor, nowMs, key);
    }
  }

  /** A scope window of one millisecond with this cap. */
  function CapWindow(code: string, cap: Amount): (w: Window)
    ensures WellFormed(w) && w.capMinor.Some? && Cap(w) == cap && w.maxCount.None? && !PerMerchant(w)
  {
    Window(code, Finite(1.0), Some(Finite(cap as real)), None, None)
  }

  function Witnesses(codes: seq<string>, i: nat, j: nat): (windows: seq<Window>)
    ensures |windows| == |codes|
    ensures forall k :: 0 <= k < |codes| ==> windows[k] == CapWindow(codes[k], if k == i then 1 else if k == j then 0 else 2)
  {
    seq(|codes|, k requires 0 <= k < |codes| => CapWindow(codes[k], if k == i then 1 else if k == j then 0 else 2))
  }

  lemma {:induction false} FirstRefuser(windows: seq<Window>, rows: seq<Spend>, k: nat, amount: Amount, nowMs: int, key: Option<string>)
    requires AllWellFormed(windows) && k < |windows|
    requires forall i :: 0 <= i < k ==> Refusal(windows[i], rows, amount, nowMs, key).None?
    requires Refusal(windows[k], rows, amount, nowMs, key).Some?
    ensures FirstRefusal(windows, rows, amount, nowMs, key) == Refusal(windows[k], rows, amount, nowMs, key)
  {
    hide Refusal, WellFormed;
    if k > 0 {
      forall i | 0 <= i < k - 1
        ensures Refusal(windows[1..][i], rows, amount, nowMs, key).None?
      {
        assert windows[1..][i] == windows[i + 1];
      }
      FirstRefuser(windows[1..], rows, k - 1, amount, nowMs, key);
    }
  }

  lemma CapWindowRefuses(code: string, cap: Amount, rows: seq<Spend>, amount: Amount, nowMs: int)
    requires forall i :: 0 <= i < |rows| ==> rows[i].ms == nowMs && rows[i].amountMinor == 1
    requires |rows| <= 1
    ensures Refusal(CapWindow(code, cap), rows, amount, nowMs, None) == if |rows| + amount > cap then Some(code) else None
  {
    var w := CapWindow(code, cap);
    if |rows| == 1 {
      assert rows[..0] == [];
      assert Spent(w, rows, nowMs, None) == 1;
    }
  }

  lemma OutOfOrderDiffers(codes: seq<string>, i: nat, j: nat)
    requires i < j < |codes| && codes[j] == WINDOW_INVALID && codes[i] != WINDOW_INVALID
    ensures !AlwaysSameCode(codes)
  {
    hide CapWindow, FirstRefusal, Refusal, WellFormed;
    var windows, row, amount := Witnesses(codes, i, j), Spend(1, 0, None), Finite(1.0);
    assert Codes(windows) == codes by {
      forall k | 0 <= k < |codes|
        ensures windows[k].code == codes[k]
      {
        CapWindowCode(codes[k], if k == i then 1 else if k == j then 0 else 2);
      }
    }
    assert AllWellFormed(windows);
    forall k | 0 <= k < |codes|
      ensures Refusal(windows[k], [], 1, 0, None) == if k == j then Some(codes[k]) else None
      ensures Refusal(windows[k], [row], 1, 0, None) == if k == i || k == j then Some(codes[k]) else None
    {
      CapWindowRefuses(codes[k], if k == i then 1 else if k == j then 0 else 2, [], 1, 0);
      CapWindowRefuses(codes[k], if k == i then 1 else if k == j then 0 else 2, [row], 1, 0);
    }
    FirstRefuser(windows, [], j, 1, 0, None);
    FirstRefuser(windows, [row], i, 1, 0, None);
    assert !SameCode(windows, [row], amount, 0, None);
  }

  lemma CapWindowCode(code: string, cap: Amount)
    ensures CapWindow(code, cap).code == code
  {
  }
}

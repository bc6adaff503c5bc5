/** Budget keys and the in-memory limiter with its two indexes, against the book of SpendBook. */
module SpendLimiter {
  import opened Text
  import opened SpendWindow
  import opened SpendBook

  // ---------- Budget keys ----------

  function ScopeKey(scope: string, currency: string): string {
    Decimal(|scope|) + ":" + scope + ":" + currency
  }

  /** No two budgets share a key, whatever separators their names contain. */
  lemma ScopeKeyIsInjective(s1: string, c1: string, s2: string, c2: string)
    ensures ScopeKey(s1, c1) == ScopeKey(s2, c2) <==> s1 == s2 && c1 == c2
  {
    hide Decimal;
    if ScopeKey(s1, c1) == ScopeKey(s2, c2) {
      var x, y := s1 + ":" + c1, s2 + ":" + c2;
      assert ScopeKey(s1, c1) == Decimal(|s1|) + ":" + x;
      assert ScopeKey(s2, c2) == Decimal(|s2|) + ":" + y;
      SeparatorSplits(Decimal(|s1|), x, Decimal(|s2|), y, ':');
      DecimalIsInjective(|s1|, |s2|);
      assert s1 == x[..|s1|] && s2 == y[..|s2|];
      assert c1 == x[|s1| + 1..] && c2 == y[|s2| + 1..];
    }
  }

  function KeyOf(r: Row): string {
    ScopeKey(r.scope, r.currency)
  }

  // ---------- Rows by key ----------

  function InKey(rows: seq<Row>, key: string): (listed: seq<Row>)
    ensures forall r :: r in listed <==> r in rows && KeyOf(r) == key
  {
    if rows == [] then []
    else
      var before, r := InKey(rows[..|rows| - 1], key), rows[|rows| - 1];
      if KeyOf(r) == key then before + [r] else before
  }

  function Spends(rows: seq<Row>): (spends: seq<Spend>)
    ensures |spends| == |rows|
  {
    seq(|rows|, i requires 0 <= i < |rows| => rows[i].spend)
  }

  lemma InKeySnoc(rows: seq<Row>, r: Row, key: string)
    ensures InKey(rows + [r], key) == if KeyOf(r) == key then InKey(rows, key) + [r] else InKey(rows, key)
  {
    assert (rows + [r])[..|rows|] == rows;
  }

  lemma {:induction false} InKeyIsInScope(rows: seq<Row>, scope: string, currency: string)
    ensures Spends(InKey(rows, ScopeKey(scope, currency))) == InScope(rows, scope, currency)
  {
    hide ScopeKey;
    if rows != [] {
      var r := rows[|rows| - 1];
      InKeyIsInScope(rows[..|rows| - 1], scope, currency);
      ScopeKeyIsInjective(r.scope, r.currency, scope, currency);
    }
  }

  lemma {:induction false} InKeyWithout(rows: seq<Row>, id: string, key: string)
    ensures InKey(Without(rows, id), key) == Without(InKey(rows, key), id)
  {
    hide KeyOf, InKey, Without;
    if rows == [] {
      EmptyFilters(id, key, 0);
    } else {
      var before, r := rows[..|rows| - 1], rows[|rows| - 1];
      assert rows == before + [r];
      InKeyWithout(before, id, key);
      InKeySnoc(before, r, key);
      WithoutSnoc(before, r, id);
      InKeySnoc(Without(before, id), r, key);
      WithoutSnoc(InKey(before, key), r, id);
    }
  }

  lemma EmptyFilters(id: string, key: string, beforeMs: int)
    ensures InKey([], key) == [] && Without([], id) == [] && Since([], beforeMs) == []
  {
  }

  lemma SinceSnoc(rows: seq<Row>, r: Row, beforeMs: int)
    ensures Since(rows + [r], beforeMs) == if r.spend.ms >= beforeMs then Since(rows, beforeMs) + [r] else Since(rows, beforeMs)
  {
    assert (rows + [r])[..|rows|] == rows;
  }

  lemma {:induction false} InKeySince(rows: seq<Row>, beforeMs: int, key: string)
    ensures InKey(Since(rows, beforeMs), key) == Since(InKey(rows, key), beforeMs)
  {
    hide KeyOf, InKey, Since;
    if rows == [] {
      EmptyFilters("", key, beforeMs);
    } else {
      var before, r := rows[..|rows| - 1], rows[|rows| - 1];
      assert rows == before + [r];
      InKeySince(before, beforeMs, key);
      InKeySnoc(before, r, key);
      SinceSnoc(before, r, beforeMs);
      InKeySnoc(Since(before, beforeMs), r, key);
      SinceSnoc(InKey(before, key), r, beforeMs);
    }
  }

  lemma {:induction false} InKeyKeepsOrder(rows: seq<Row>, key: string)
    requires DistinctIds(rows)
    ensures DistinctIds(InKey(rows, key))
  {
    hide KeyOf;
    if rows != [] {
      var before, r := rows[..|rows| - 1], rows[|rows| - 1];
      InKeyKeepsOrder(before, key);
      forall i | 0 <= i < |InKey(before, key)|
        ensures InKey(before, key)[i].id != r.id
      {
        assert InKey(before, key)[i] in before;
      }
    }
  }

  /** Removing by id is splicing out the one place that carries it. */
  lemma {:induction false} WithoutIsSplice(rows: seq<Row>, k: nat)
    requires DistinctIds(rows) && k < |rows|
    ensures Without(rows, rows[k].id) == rows[..k] + rows[k + 1..]
  {
    hide *;
    var n := |rows| - 1;
    var before, last := rows[..n], rows[n];
    assert rows == before + [last];
    DistinctParts(rows);
    WithoutSnoc(before, last, rows[k].id);
    if k == n {
      WithoutAbsent(before, last.id);
    } else {
      WithoutIsSplice(before, k);
      assert rows[..k] == before[..k] && rows[k + 1..] == before[k + 1..] + [last];
    }
  }

  lemma DistinctParts(rows: seq<Row>)
    requires DistinctIds(rows) && rows != []
    ensures DistinctIds(rows[..|rows| - 1])
    ensures forall r :: r in rows[..|rows| - 1] ==> r.id != rows[|rows| - 1].id
    ensures forall k :: 0 <= k < |rows| - 1 ==> rows[k].id != rows[|rows| - 1].id
  {
  }

  // ---------- The in-memory limiter ----------

  class SpendRecord {
    const row: Row
    var state: State

    constructor (row: Row)
      ensures this.row == row && state == Held
    {
      this.row, state := row, Held;
    }
  }

  function RowsOf(records: seq<SpendRecord>): (rows: seq<Row>)
    ensures |rows| == |records| && forall i :: 0 <= i < |rows| ==> rows[i] == records[i].row
  {
    seq(|records|, i requires 0 <= i < |records| => records[i].row)
  }

  method IndexOf(records: seq<SpendRecord>, r: SpendRecord) returns (i: int)
    ensures -1 <= i < |records|
    ensures i >= 0 ==> records[i] == r
    ensures i < 0 ==> r !in records
  {
    i := 0;
    while i < |records|
      invariant 0 <= i <= |records| && r !in records[..i]
    {
      if records[i] == r {
        return;
      }
      i := i + 1;
    }
    i := -1;
  }

  // The two indexes, as values: `row` never changes, so no heap is read.

  function Listed(byScope: map<string, seq<SpendRecord>>, key: string): seq<SpendRecord> {
    if key in byScope then byScope[key] else []
  }

  ghost predicate FiledById(byId: map<string, SpendRecord>, rows: seq<Row>) {
    && (forall id :: id in byId <==> HasId(rows, id))
    && (forall id :: id in byId ==> byId[id].row.id == id && byId[id].row in rows)
  }

  predicate Indexed(records: seq<SpendRecord>, byId: map<string, SpendRecord>) {
    forall i :: 0 <= i < |records| ==> records[i].row.id in byId && byId[records[i].row.id] == records[i]
  }

  predicate FiledUnder(records: seq<SpendRecord>, byId: map<string, SpendRecord>, rows: seq<Row>, key: string) {
    RowsOf(records) == InKey(rows, key) && Indexed(records, byId)
  }

  /** The two indexes hold the same records, filed under their budget in booking order. */
  ghost predicate Filed(byScope: map<string, seq<SpendRecord>>, byId: map<string, SpendRecord>, rows: seq<Row>) {
    && DistinctIds(rows)
    && FiledById(byId, rows)
    && forall key :: FiledUnder(Listed(byScope, key), byId, rows, key)
  }

  lemma InsertByIdFiles(byId: map<string, SpendRecord>, rows: seq<Row>, record: SpendRecord)
    requires FiledById(byId, rows) && record.row.id !in byId
    ensures FiledById(byId[record.row.id := record], rows + [record.row])
  {
    var next := rows + [record.row];
    forall id
      ensures HasId(next, id) <==> HasId(rows, id) || id == record.row.id
    {
      if HasId(rows, id) {
        var i :| 0 <= i < |rows| && rows[i].id == id;
        assert next[i].id == id;
      }
      assert next[|rows|].id == record.row.id;
    }
  }

  lemma InsertFiles(byScope: map<string, seq<SpendRecord>>, byId: map<string, SpendRecord>, rows: seq<Row>, record: SpendRecord, key: string)
    requires Filed(byScope, byId, rows) && record.row.id !in byId && key == KeyOf(record.row)
    ensures Filed(byScope[key := Listed(byScope, key) + [record]], byId[record.row.id := record], rows + [record.row])
  {
    hide HasId, KeyOf, InKey, FiledById, FiledUnder, DistinctIds;
    var byScope', byId', rows' := byScope[key := Listed(byScope, key) + [record]], byId[record.row.id := record], rows + [record.row];
    NewIdIsDistinct(byId, rows, record.row);
    InsertByIdFiles(byId, rows, record);
    forall k
      ensures FiledUnder(Listed(byScope', k), byId', rows', k)
    {
      assert FiledUnder(Listed(byScope, k), byId, rows, k);
      InsertUnder(Listed(byScope, k), byId, rows, record, k);
    }
  }

  lemma InsertUnder(records: seq<SpendRecord>, byId: map<string, SpendRecord>, rows: seq<Row>, record: SpendRecord, k: string)
    requires FiledUnder(records, byId, rows, k) && record.row.id !in byId
    ensures FiledUnder(if k == KeyOf(record.row) then records + [record] else records, byId[record.row.id := record], rows + [record.row], k)
  {
    hide KeyOf, InKey;
    InKeySnoc(rows, record.row, k);
    assert RowsOf(records + [record]) == RowsOf(records) + [record.row];
  }

  lemma NewIdIsDistinct(byId: map<string, SpendRecord>, rows: seq<Row>, row: Row)
    requires DistinctIds(rows) && FiledById(byId, rows) && row.id !in byId
    ensures DistinctIds(rows + [row])
  {
    assert !HasId(rows, row.id);
  }

  lemma RemoveByIdFiles(byId: map<string, SpendRecord>, rows: seq<Row>, id: string)
    requires FiledById(byId, rows)
    ensures FiledById(byId - {id}, Without(rows, id))
  {
    forall other | other != id && HasId(rows, other)
      ensures HasId(Without(rows, id), other)
    {
    }
    forall other | HasId(Without(rows, id), other)
      ensures other != id && HasId(rows, other)
    {
      var i :| 0 <= i < |Without(rows, id)| && Without(rows, id)[i].id == other;
      assert Without(rows, id)[i] in Without(rows, id);
    }
  }

  function Spliced<T>(s: seq<T>, i: int): seq<T> {
    if 0 <= i < |s| then s[..i] + s[i + 1..] else s
  }

  lemma RemoveFiles(byScope: map<string, seq<SpendRecord>>, byId: map<string, SpendRecord>, rows: seq<Row>, record: SpendRecord, i: nat)
    requires Filed(byScope, byId, rows) && record.row.id in byId && byId[record.row.id] == record
    requires var records := Listed(byScope, KeyOf(record.row)); i < |records| && records[i] == record
    ensures var key := KeyOf(record.row);
      Filed(byScope[key := Spliced(Listed(byScope, key), i)], byId - {record.row.id}, Without(rows, record.row.id))
  {
    hide HasId, KeyOf, Without, InKey;
    var key, id := KeyOf(record.row), record.row.id;
    var byScope', byId', rows' := byScope[key := Spliced(Listed(byScope, key), i)], byId - {id}, Without(rows, id);
    WithoutKeepsOrder(rows, id);
    RemoveByIdFiles(byId, rows, id);
    forall k
      ensures FiledUnder(Listed(byScope', k), byId', rows', k)
    {
      assert FiledUnder(Listed(byScope, k), byId, rows, k);
      InKeyWithout(rows, id, k);
      InKeyKeepsOrder(rows, k);
      if k == key {
        SpliceFiles(Listed(byScope, k), byId, InKey(rows, k), i);
      } else {
        OtherKeyFiles(Listed(byScope, k), byId, rows, record.row, k);
      }
    }
  }

  lemma SpliceFiles(records: seq<SpendRecord>, byId: map<string, SpendRecord>, listed: seq<Row>, i: nat)
    requires RowsOf(records) == listed && Indexed(records, byId) && DistinctIds(listed) && i < |records|
    ensures RowsOf(Spliced(records, i)) == Without(listed, records[i].row.id)
    ensures Indexed(Spliced(records, i), byId - {records[i].row.id})
  {
    hide Without;
    WithoutIsSplice(listed, i);
    var kept := Spliced(records, i);
    assert RowsOf(kept) == listed[..i] + listed[i + 1..];
    forall j | 0 <= j < |kept|
      ensures kept[j].row.id in byId - {records[i].row.id} && byId[kept[j].row.id] == kept[j]
    {
      var from := if j < i then j else j + 1;
      assert kept[j] == records[from] && listed[from].id != listed[i].id;
    }
  }

  lemma OtherKeyFiles(records: seq<SpendRecord>, byId: map<string, SpendRecord>, rows: seq<Row>, row: Row, k: string)
    requires DistinctIds(rows) && row in rows && KeyOf(row) != k
    requires FiledUnder(records, byId, rows, k)
    ensures RowsOf(records) == Without(InKey(rows, k), row.id) && Indexed(records, byId - {row.id})
  {
    hide Without, KeyOf;
    forall r | r in InKey(rows, k)
      ensures r.id != row.id
    {
    }
    WithoutAbsent(InKey(rows, k), row.id);
    forall i | 0 <= i < |records|
      ensures records[i].row.id != row.id
    {
      assert RowsOf(records)[i] in InKey(rows, k);
    }
  }

  class MemorySpendLimiter {
    var byScope: map<string, seq<SpendRecord>>
    var byId: map<string, SpendRecord>
    ghost var book: Book

    ghost predicate Valid()
      reads this, byId.Values
    {
      && WellKept(book)
      && Filed(byScope, byId, book.rows)
      && forall id :: id in byId ==> byId[id].state == StateOf(book, id)
    }

    constructor ()
      ensures Valid() && book == EMPTY && byId == map[]
    {
      byScope, byId, book := map[], map[], EMPTY;
      new;
    }

    method Reserve(req: Request) returns (result: ReserveResult)
      requires Valid()
      modifies this
      ensures Valid() && fresh(byId.Values - old(byId.Values))
      ensures result == ReserveAnswer(old(book), req)
      ensures book == AfterReserve(old(book), req)
    {
      hide InScope, Verdict, HasId, ScopeKey, FiledUnder, DistinctIds, InKey;
      if req.reservationId in byId {
        return Replayed(byId[req.reservationId].state);
      }
      var key := ScopeKey(req.scope, req.currency);
      var records := Listed(byScope, key);
      ListedIsInScope(byScope, byId, book.rows, req.scope, req.currency);
      var violated := FirstViolatedWindow(req.windows, Spends(RowsOf(records)), req.amountMinor, req.nowMs, req.merchantKey);
      if violated.Some? {
        return Refused(violated.value);
      }
      assert VerdictIn(book, req).None?;
      var record := new SpendRecord(NewRow(req));
      InsertFiles(byScope, byId, book.rows, record, key);
      ApplyKeeps(book, DoReserve(req));
      byScope := byScope[key := records + [record]];
      byId := byId[req.reservationId := record];
      book := AfterReserve(book, req);
      result := Reserved;
    }

    method Commit(id: string)
      requires Valid()
      modifies byId.Values, this`book
      ensures Valid() && byId == old(byId)
      ensures book == AfterCommit(old(book), id)
    {
      hide HasId, Filed, DistinctIds;
      ApplyKeeps(book, DoCommit(id));
      IndexedById(byScope, byId, book.rows);
      if id in byId {
        byId[id].state := Committed;
      }
      book := AfterCommit(book, id);
    }

    method Release(id: string)
      requires Valid()
      modifies this
      ensures Valid() && byId.Values <= old(byId.Values)
      ensures book == AfterRelease(old(book), id)
    {
      hide HasId, Filed, DistinctIds, Without, KeyOf;
      ApplyKeeps(book, DoRelease(id));
      IndexedById(byScope, byId, book.rows);
      if id !in byId {
        AbsentStays(byScope, byId, book, id);
        book := AfterRelease(book, id);
        return;
      }
      var r := byId[id];
      if r.state == Committed {
        return;
      }
      var key := KeyOf(r.row);
      FindsItself(byScope, byId, book.rows, r);
      var records := Listed(byScope, key);
      var i := IndexOf(records, r);
      RemoveFiles(byScope, byId, book.rows, r, i);
      byId := byId - {id};
      byScope := byScope[key := records[..i] + records[i + 1..]];
      book := AfterRelease(book, id);
    }

    /** The filter callback of one budget: expired records also leave the id index. */
    method KeepSince(key: string, beforeMs: int) returns (keep: seq<SpendRecord>, removed: nat)
      requires key in byScope && Filed(byScope, byId, book.rows)
      modifies this`byId, this`book
      ensures Filed(byScope[key := keep], byId, book.rows)
      ensures AllSince(keep, beforeMs)
      ensures Since(book.rows, beforeMs) == Since(old(book).rows, beforeMs)
      ensures forall r :: r in book.rows ==> r in old(book).rows
      ensures IndexShrinks(old(byId), byId, removed) && book.committed == old(book).committed
    {
      hide *;
      var records := byScope[key];
      keep, removed := [], 0;
      IndexSame(byId);
      AllSinceEmpty(beforeMs);
      assert [] + records[0..] == records && byScope[key := records] == byScope;
      var i := 0;
      while i < |records|
        invariant 0 <= i <= |records| && AllSince(keep, beforeMs)
        invariant Filed(byScope[key := keep + records[i..]], byId, book.rows)
        invariant Since(book.rows, beforeMs) == Since(old(book).rows, beforeMs)
        invariant forall r :: r in book.rows ==> r in old(book).rows
        invariant IndexShrinks(old(byId), byId, removed) && book.committed == old(book).committed
      {
        var r := records[i];
        NextRecord(keep, records, i);
        if r.row.spend.ms >= beforeMs {
          AllSinceSnoc(keep, r, beforeMs);
          keep := keep + [r];
        } else {
          DropExpired(byScope, byId, book.rows, key, keep + records[i..], |keep|, r, beforeMs);
          IndexDrops(old(byId), byId, removed, r.row.id);
          byId := byId - {r.row.id};
          book := book.(rows := Without(book.rows, r.row.id));
          removed := removed + 1;
        }
        i := i + 1;
      }
      assert keep + records[i..] == keep;
    }

    method PruneBefore(beforeMs: int) returns (removed: nat)
      requires Valid()
      modifies this
      ensures Valid() && byId.Values <= old(byId.Values)
      ensures book == AfterPrune(old(book), beforeMs)
      ensures removed == |old(byId)| - |byId|
    {
      hide Filed, IndexShrinks, Since, HasId, DistinctIds, KeyOf, ExpiredOnlyIn;
      ApplyKeeps(book, DoPrune(beforeMs));
      PruneStarts(byScope, byId, book.rows, beforeMs);
      removed := 0;
      var keys := byScope.Keys;
      while keys != {}
        invariant Filed(byScope, byId, book.rows) && keys <= byScope.Keys
        invariant Since(book.rows, beforeMs) == Since(old(book).rows, beforeMs)
        invariant ExpiredOnlyIn(book.rows, beforeMs, keys)
        invariant IndexShrinks(old(byId), byId, removed) && book.committed == old(book).committed
        decreases keys
      {
        var key :| key in keys;
        ghost var index, rows := byId, book.rows;
        var keep, dropped := KeepSince(key, beforeMs);
        IndexShrinksOn(old(byId), index, byId, removed, dropped);
        PrunedKey(byScope, byId, rows, book.rows, keep, key, beforeMs, keys);
        removed := removed + dropped;
        byScope := if keep == [] then byScope - {key} else byScope[key := keep];
        keys := keys - {key};
      }
      PruneEnds(book.rows, beforeMs);
      IndexKept(old(byId), byId, removed);
      IndexedById(byScope, byId, book.rows);
      book := AfterPrune(old(book), beforeMs);
    }
  }

  predicate AllSince(records: seq<SpendRecord>, beforeMs: int) {
    forall i :: 0 <= i < |records| ==> records[i].row.spend.ms >= beforeMs
  }

  predicate IndexShrinks(before: map<string, SpendRecord>, after: map<string, SpendRecord>, removed: int) {
    && removed == |before| - |after|
    && forall id :: id in after ==> id in before && after[id] == before[id]
  }

  lemma AllSinceEmpty(beforeMs: int)
    ensures AllSince([], beforeMs)
  {
  }

  lemma AllSinceSnoc(records: seq<SpendRecord>, r: SpendRecord, beforeMs: int)
    requires AllSince(records, beforeMs) && r.row.spend.ms >= beforeMs
    ensures AllSince(records + [r], beforeMs)
  {
  }

  lemma NextRecord(keep: seq<SpendRecord>, records: seq<SpendRecord>, i: nat)
    requires i < |records|
    ensures keep + records[i..] == keep + [records[i]] + records[i + 1..]
    ensures (keep + records[i..])[|keep|] == records[i]
    ensures Spliced(keep + records[i..], |keep|) == keep + records[i + 1..]
  {
  }

  lemma IndexSame(index: map<string, SpendRecord>)
    ensures IndexShrinks(index, index, 0)
  {
  }

  lemma IndexDrops(before: map<string, SpendRecord>, after: map<string, SpendRecord>, removed: int, id: string)
    requires IndexShrinks(before, after, removed) && id in after
    ensures IndexShrinks(before, after - {id}, removed + 1)
  {
    assert after == (after - {id})[id := after[id]];
  }

  lemma IndexShrinksOn(a: map<string, SpendRecord>, b: map<string, SpendRecord>, c: map<string, SpendRecord>, m: int, n: int)
    requires IndexShrinks(a, b, m) && IndexShrinks(b, c, n)
    ensures IndexShrinks(a, c, m + n)
  {
  }

  lemma IndexKept(before: map<string, SpendRecord>, after: map<string, SpendRecord>, removed: int)
    requires IndexShrinks(before, after, removed)
    ensures removed == |before| - |after| && after.Values <= before.Values
    ensures forall id :: id in after ==> id in before && after[id] == before[id]
  {
    forall r | r in after.Values
      ensures r in before.Values
    {
      var id :| id in after && after[id] == r;
      assert before[id] == r;
    }
  }

  lemma DropExpired(byScope: map<string, seq<SpendRecord>>, byId: map<string, SpendRecord>, rows: seq<Row>,
                    key: string, records: seq<SpendRecord>, i: nat, r: SpendRecord, beforeMs: int)
    requires Filed(byScope[key := records], byId, rows) && i < |records| && records[i] == r
    requires r.row.spend.ms < beforeMs
    ensures r.row.id in byId
    ensures Filed(byScope[key := Spliced(records, i)], byId - {r.row.id}, Without(rows, r.row.id))
    ensures Since(Without(rows, r.row.id), beforeMs) == Since(rows, beforeMs)
    ensures forall row :: row in Without(rows, r.row.id) ==> row in rows
  {
    hide KeyOf, HasId, Without, Since, FiledById;
    var filed := byScope[key := records];
    assert FiledUnder(Listed(filed, key), byId, rows, key);
    assert RowsOf(records)[i] in InKey(rows, key);
    RemoveFiles(filed, byId, rows, r, i);
    assert filed[key := Spliced(records, i)] == byScope[key := Spliced(records, i)];
    SinceOfWithout(rows, r.row, beforeMs);
  }

  lemma {:induction false} SinceOfWithout(rows: seq<Row>, row: Row, beforeMs: int)
    requires forall r :: r in rows && r.id == row.id ==> r.spend.ms < beforeMs
    ensures Since(Without(rows, row.id), beforeMs) == Since(rows, beforeMs)
  {
    hide Since, Without;
    if rows == [] {
      EmptyFilters(row.id, "", beforeMs);
    } else {
      var before, last := rows[..|rows| - 1], rows[|rows| - 1];
      assert rows == before + [last];
      assert last in rows;
      SinceOfWithout(before, row, beforeMs);
      WithoutSnoc(before, last, row.id);
      SinceSnoc(before, last, beforeMs);
      SinceSnoc(Without(before, row.id), last, beforeMs);
    }
  }

  predicate ExpiredOnlyIn(rows: seq<Row>, beforeMs: int, keys: set<string>) {
    forall i :: 0 <= i < |rows| ==> rows[i].spend.ms >= beforeMs || KeyOf(rows[i]) in keys
  }

  lemma PruneStarts(byScope: map<string, seq<SpendRecord>>, byId: map<string, SpendRecord>, rows: seq<Row>, beforeMs: int)
    requires Filed(byScope, byId, rows)
    ensures ExpiredOnlyIn(rows, beforeMs, byScope.Keys) && IndexShrinks(byId, byId, 0)
  {
    hide KeyOf, HasId;
    forall i | 0 <= i < |rows|
      ensures KeyOf(rows[i]) in byScope.Keys
    {
      var key := KeyOf(rows[i]);
      assert FiledUnder(Listed(byScope, key), byId, rows, key);
      assert rows[i] in InKey(rows, key);
    }
  }

  lemma PrunedKey(byScope: map<string, seq<SpendRecord>>, byId: map<string, SpendRecord>, rows: seq<Row>, rows': seq<Row>,
                  keep: seq<SpendRecord>, key: string, beforeMs: int, keys: set<string>)
    requires Filed(byScope[key := keep], byId, rows') && AllSince(keep, beforeMs)
    requires ExpiredOnlyIn(rows, beforeMs, keys) && forall r :: r in rows' ==> r in rows
    ensures Filed(if keep == [] then byScope - {key} else byScope[key := keep], byId, rows')
    ensures ExpiredOnlyIn(rows', beforeMs, keys - {key})
  {
    hide KeyOf, HasId, FiledById, DistinctIds, FiledUnder;
    forall k
      ensures keep == [] ==> FiledUnder(Listed(byScope - {key}, k), byId, rows', k)
    {
      assert FiledUnder(Listed(byScope[key := keep], k), byId, rows', k);
      if keep == [] {
        assert Listed(byScope - {key}, k) == Listed(byScope[key := keep], k);
      }
    }
    assert FiledUnder(Listed(byScope[key := keep], key), byId, rows', key);
    forall i | 0 <= i < |rows'| && rows'[i].spend.ms < beforeMs
      ensures KeyOf(rows'[i]) in keys - {key}
    {
      ExpiredElsewhere(keep, byId, rows', key, beforeMs, rows'[i]);
      assert rows'[i] in rows;
    }
  }

  lemma ExpiredElsewhere(keep: seq<SpendRecord>, byId: map<string, SpendRecord>, rows: seq<Row>, key: string, beforeMs: int, row: Row)
    requires FiledUnder(keep, byId, rows, key) && AllSince(keep, beforeMs) && row in rows && row.spend.ms < beforeMs
    ensures KeyOf(row) != key
  {
    hide KeyOf;
  }

  lemma {:induction false} PruneEnds(rows: seq<Row>, beforeMs: int)
    requires ExpiredOnlyIn(rows, beforeMs, {})
    ensures Since(rows, beforeMs) == rows
  {
    hide KeyOf;
    if rows != [] {
      PruneEnds(rows[..|rows| - 1], beforeMs);
      assert rows == rows[..|rows| - 1] + [rows[|rows| - 1]];
    }
  }

  lemma ListedIsInScope(byScope: map<string, seq<SpendRecord>>, byId: map<string, SpendRecord>, rows: seq<Row>, scope: string, currency: string)
    requires Filed(byScope, byId, rows)
    ensures Spends(RowsOf(Listed(byScope, ScopeKey(scope, currency)))) == InScope(rows, scope, currency)
  {
    assert FiledUnder(Listed(byScope, ScopeKey(scope, currency)), byId, rows, ScopeKey(scope, currency));
    InKeyIsInScope(rows, scope, currency);
  }

  lemma IndexedById(byScope: map<string, seq<SpendRecord>>, byId: map<string, SpendRecord>, rows: seq<Row>)
    requires Filed(byScope, byId, rows)
    ensures forall id :: id in byId <==> HasId(rows, id)
    ensures forall id :: id in byId ==> byId[id].row.id == id
  {
  }

  lemma AbsentStays(byScope: map<string, seq<SpendRecord>>, byId: map<string, SpendRecord>, book: Book, id: string)
    requires WellKept(book) && Filed(byScope, byId, book.rows) && id !in byId
    ensures AfterRelease(book, id) == book
  {
    forall r | r in book.rows
      ensures r.id != id
    {
      var i :| 0 <= i < |book.rows| && book.rows[i] == r;
      assert HasId(book.rows, r.id);
    }
    WithoutAbsent(book.rows, id);
  }

  lemma FindsItself(byScope: map<string, seq<SpendRecord>>, byId: map<string, SpendRecord>, rows: seq<Row>, r: SpendRecord)
    requires Filed(byScope, byId, rows) && r.row.id in byId && byId[r.row.id] == r
    ensures KeyOf(r.row) in byScope && r in byScope[KeyOf(r.row)]
  {
    hide KeyOf;
    var key := KeyOf(r.row);
    assert FiledUnder(Listed(byScope, key), byId, rows, key);
    assert r.row in InKey(rows, key);
    var i :| 0 <= i < |InKey(rows, key)| && InKey(rows, key)[i] == r.row;
    assert Listed(byScope, key)[i].row == r.row;
  }
}

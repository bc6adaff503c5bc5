/** Many writers over one compare-and-append store. */
module LedgerWriters {
  import opened Prelude
  import opened JsonText
  import opened JsonNumber
  import opened CanonicalJson
  import opened Ledger

  const MAX_APPEND_ATTEMPTS: nat := 32

  /** What a caller asks to record. */
  datatype Draft = Draft(kind: JsString, data: Value, intentId: Option<JsString>, agentId: Option<JsString>)

  function Partial(draft: Draft, tip: Tip, stamp: JsString): Entry {
    Entry(tip.number + 1, stamp, draft.kind, draft.intentId, draft.agentId, draft.data, tip.hash, [])
  }

  /** The entry chained onto a tip, unless its contents cannot be canonicalized. */
  function Built(sha: Sha, draft: Draft, tip: Tip, stamp: JsString): Option<Entry> {
    var partial := Partial(draft, tip, stamp);
    var hash := EntryHash(sha, partial);
    if hash.None? then None else Some(partial.(hash := hash.value))
  }

  lemma SomeAttempts()
    ensures MAX_APPEND_ATTEMPTS == 32
  {
  }

  /** The data can be written canonically, or is left out. */
  predicate Recordable(draft: Draft) {
    draft.data == Undefined || Accepted(draft.data, 1)
  }

  /** Nothing but the data can keep a draft from being recorded. */
  lemma BuiltIffRecordable(sha: Sha, draft: Draft, tip: Tip, stamp: JsString)
    ensures Built(sha, draft, tip, stamp).Some? <==> Recordable(draft)
  {
    hide Contents, FromInt, Text, Accepted;
    AcceptedContents(Partial(draft, tip, stamp));
  }

  lemma AcceptedContents(e: Entry)
    ensures Accepted(Contents(e), 0) <==> e.data == Undefined || Accepted(e.data, 1)
  {
    hide FromInt, Text;
    FieldsOf(e);
    FieldNames();
    var props := Contents(e).props;
    assert forall k :: k in props ==> Field(k);
    assert props[DATA] == e.data;
    forall k | k in props && k != DATA
      ensures props[k] == Undefined || Accepted(props[k], 1)
    {
      OtherFieldAccepted(e, k);
    }
  }

  lemma OtherFieldAccepted(e: Entry, key: JsString)
    requires Field(key) && key != DATA
    ensures Contents(e).props[key] == Undefined || Accepted(Contents(e).props[key], 1)
  {
    FieldsOf(e);
    FromIntIsFinite(e.number);
    hide FromInt, Text;
  }

  lemma FromIntIsFinite(n: int)
    ensures IsFinite(FromInt(n))
  {
    hide WithoutTrailing, DecimalUnits;
  }

  lemma BuiltExtends(sha: Sha, draft: Draft, entries: seq<Entry>, stamp: JsString)
    requires Chain(sha, entries) && Built(sha, draft, TipOf(entries), stamp).Some?
    ensures Chain(sha, entries + [Built(sha, draft, TipOf(entries), stamp).value])
  {
    var e := Built(sha, draft, TipOf(entries), stamp).value;
    BuiltHash(sha, draft, TipOf(entries), stamp);
    hide EntryHash, Chain, Built;
    ChainTip(sha, entries);
    ChainSnoc(sha, entries + [e]);
    assert (entries + [e])[..|entries|] == entries;
  }

  lemma BuiltHash(sha: Sha, draft: Draft, tip: Tip, stamp: JsString)
    requires Built(sha, draft, tip, stamp).Some?
    ensures var e := Built(sha, draft, tip, stamp).value;
      && EntryHash(sha, e) == Some(e.hash) && e.number == tip.number + 1 && e.prevHash == tip.hash && Carries(e, draft)
  {
    hide Canonical;
    var partial := Partial(draft, tip, stamp);
    assert Contents(Built(sha, draft, tip, stamp).value) == Contents(partial);
  }

  predicate Carries(e: Entry, draft: Draft) {
    e.kind == draft.kind && e.data == draft.data && e.intentId == draft.intentId && e.agentId == draft.agentId
  }

  // ---------- The protocol ----------

  /** `seen` is how long the ledger was when the tip was read, `began` when it was first read. */
  datatype Writer =
    | Waiting(draft: Draft)
    | Holding(draft: Draft, tip: Tip, attempt: nat, seen: nat, began: nat)
    | Wrote(draft: Draft, at: nat)
    | Lost(draft: Draft, began: nat)
    | Refused(draft: Draft)

  /** `authors` is history: which writer each entry came from. */
  datatype World = World(entries: seq<Entry>, writers: seq<Writer>, authors: seq<nat>)

  const EMPTY_LEDGER := World([], [], [])

  datatype Action = Join(draft: Draft) | ReadTip(i: nat) | TryAppend(i: nat, stamp: JsString)

  function Step(sha: Sha, s: World, action: Action): World {
    match action
    case Join(draft) => s.(writers := s.writers + [Waiting(draft)])
    case ReadTip(i) =>
      if i < |s.writers| && s.writers[i].Waiting? then
        var n := |s.entries|;
        s.(writers := s.writers[i := Holding(s.writers[i].draft, TipOf(s.entries), 0, n, n)])
      else s
    case TryAppend(i, stamp) => if i < |s.writers| && s.writers[i].Holding? then Attempt(sha, s, i, stamp) else s
  }

  /** One trip to the store: compare the tip, and append or report the real one. */
  function Attempt(sha: Sha, s: World, i: nat, stamp: JsString): World
    requires i < |s.writers| && s.writers[i].Holding?
  {
    var w := s.writers[i];
    var built := Built(sha, w.draft, w.tip, stamp);
    if built.None? then s.(writers := s.writers[i := Refused(w.draft)])
    else if TipOf(s.entries) == w.tip then
      World(s.entries + [built.value], s.writers[i := Wrote(w.draft, |s.entries|)], s.authors + [i])
    else if w.attempt + 1 == MAX_APPEND_ATTEMPTS then s.(writers := s.writers[i := Lost(w.draft, w.began)])
    else s.(writers := s.writers[i := Holding(w.draft, TipOf(s.entries), w.attempt + 1, |s.entries|, w.began)])
  }

  function Run(sha: Sha, actions: seq<Action>): World {
    if actions == [] then EMPTY_LEDGER else Step(sha, Run(sha, actions[..|actions| - 1]), actions[|actions| - 1])
  }

  // ---------- The invariant ----------

  predicate WriterOk(s: World, i: nat, w: Writer) {
    match w
    case Waiting(_) => true
    case Holding(_, tip, attempt, seen, began) =>
      seen <= |s.entries| && tip == TipOf(s.entries[..seen]) && attempt < MAX_APPEND_ATTEMPTS && began + attempt <= seen
    case Wrote(draft, at) =>
      at < |s.entries| == |s.authors| && s.authors[at] == i && Carries(s.entries[at], draft)
    case Lost(_, began) => began + MAX_APPEND_ATTEMPTS <= |s.entries|
    case Refused(_) => true
  }

  predicate AuthorOk(s: World, k: nat) {
    k < |s.authors| ==> s.authors[k] < |s.writers| && s.writers[s.authors[k]].Wrote? && s.writers[s.authors[k]].at == k
  }

  ghost predicate Inv(sha: Sha, s: World) {
    && Chain(sha, s.entries)
    && |s.authors| == |s.entries|
    && (forall i :: 0 <= i < |s.writers| ==> WriterOk(s, i, s.writers[i]))
    && forall k :: 0 <= k < |s.authors| ==> AuthorOk(s, k)
  }

  /** The tip a writer holds is still the tip exactly when nobody has appended since. */
  lemma TipIsFresh(sha: Sha, s: World, i: nat)
    requires Inv(sha, s) && i < |s.writers| && s.writers[i].Holding?
    ensures TipOf(s.entries) == s.writers[i].tip <==> s.writers[i].seen == |s.entries|
  {
    hide TipOf, Chain;
    var seen := s.writers[i].seen;
    assert WriterOk(s, i, s.writers[i]);
    ChainTip(sha, s.entries);
    ChainPrefix(sha, s.entries, seen);
    ChainTip(sha, s.entries[..seen]);
    if seen == |s.entries| {
      assert s.entries[..seen] == s.entries;
    }
  }

  lemma ChainPrefix(sha: Sha, entries: seq<Entry>, n: nat)
    requires Chain(sha, entries) && n <= |entries|
    ensures Chain(sha, entries[..n])
  {
    hide Extends, TipOf;
    assert forall i :: 0 <= i <= n ==> entries[..n][..i] == entries[..i];
  }

  lemma MoveKeeps(sha: Sha, s: World, i: nat, w: Writer)
    requires Inv(sha, s) && i < |s.writers| && !s.writers[i].Wrote? && WriterOk(s, i, w)
    ensures Inv(sha, s.(writers := s.writers[i := w]))
  {
    hide Chain;
    var s' := s.(writers := s.writers[i := w]);
    forall j | 0 <= j < |s'.writers|
      ensures WriterOk(s', j, s'.writers[j])
    {
      assert WriterOk(s, j, s.writers[j]);
    }
    forall k | 0 <= k < |s'.authors|
      ensures AuthorOk(s', k)
    {
      assert AuthorOk(s, k);
    }
  }

  lemma AppendKeeps(sha: Sha, s: World, i: nat, stamp: JsString)
    requires Inv(sha, s) && i < |s.writers| && s.writers[i].Holding? && s.writers[i].tip == TipOf(s.entries)
    requires Built(sha, s.writers[i].draft, s.writers[i].tip, stamp).Some?
    ensures Inv(sha, Attempt(sha, s, i, stamp))
  {
    hide Chain, Built, Carries, TipOf;
    var s' := Attempt(sha, s, i, stamp);
    var w := s.writers[i];
    BuiltExtends(sha, w.draft, s.entries, stamp);
    BuiltHash(sha, w.draft, w.tip, stamp);
    forall j | 0 <= j < |s'.writers|
      ensures WriterOk(s', j, s'.writers[j])
    {
      assert WriterOk(s, j, s.writers[j]);
      if j != i {
        WriterStays(s, s', j, s.writers[j]);
      }
    }
    forall k | 0 <= k < |s'.authors|
      ensures AuthorOk(s', k)
    {
      if k < |s.authors| {
        assert AuthorOk(s, k);
      }
    }
  }

  lemma WriterStays(s: World, s': World, j: nat, w: Writer)
    requires WriterOk(s, j, w) && s.entries <= s'.entries && s.authors <= s'.authors
    requires |s'.entries| == |s'.authors|
    ensures WriterOk(s', j, w)
  {
    hide TipOf, Carries;
    if w.Holding? {
      assert s'.entries[..w.seen] == s.entries[..w.seen];
    }
  }

  lemma AttemptKeeps(sha: Sha, s: World, i: nat, stamp: JsString)
    requires Inv(sha, s) && i < |s.writers| && s.writers[i].Holding?
    ensures Inv(sha, Attempt(sha, s, i, stamp))
  {
    hide Inv, Built, TipOf;
    var w := s.writers[i];
    WriterIsOk(sha, s, i);
    TipIsFresh(sha, s, i);
    var built := Built(sha, w.draft, w.tip, stamp);
    if built.Some? && TipOf(s.entries) == w.tip {
      AppendKeeps(sha, s, i, stamp);
    } else {
      assert s.entries[..|s.entries|] == s.entries;
      MoveKeeps(sha, s, i, Attempt(sha, s, i, stamp).writers[i]);
    }
  }

  lemma WriterIsOk(sha: Sha, s: World, i: nat)
    requires Inv(sha, s) && i < |s.writers|
    ensures WriterOk(s, i, s.writers[i])
  {
    hide Chain;
  }

  lemma StepKeeps(sha: Sha, s: World, action: Action)
    requires Inv(sha, s)
    ensures Inv(sha, Step(sha, s, action))
  {
    hide Attempt, Chain, TipOf;
    match action
    case Join(draft) =>
      var s' := Step(sha, s, action);
      forall j | 0 <= j < |s'.writers|
        ensures WriterOk(s', j, s'.writers[j])
      {
        if j < |s.writers| {
          WriterStays(s, s', j, s.writers[j]);
        }
      }
      forall k | 0 <= k < |s'.authors|
        ensures AuthorOk(s', k)
      {
        assert AuthorOk(s, k);
      }
    case ReadTip(i) =>
      if i < |s.writers| && s.writers[i].Waiting? {
        assert s.entries[..|s.entries|] == s.entries;
        MoveKeeps(sha, s, i, Holding(s.writers[i].draft, TipOf(s.entries), 0, |s.entries|, |s.entries|));
      }
    case TryAppend(i, stamp) =>
      if i < |s.writers| && s.writers[i].Holding? {
        AttemptKeeps(sha, s, i, stamp);
      }
  }

  lemma {:induction false} RunKeeps(sha: Sha, actions: seq<Action>)
    ensures Inv(sha, Run(sha, actions))
  {
    if actions == [] {
    } else {
      hide Inv, Step;
      RunKeeps(sha, actions[..|actions| - 1]);
      StepKeeps(sha, Run(sha, actions[..|actions| - 1]), actions[|actions| - 1]);
    }
  }

  // ---------- What holds of every run ----------

  /** The ledger is one chain, and verification accepts it and its head. */
  lemma EveryLedgerVerifies(sha: Sha, actions: seq<Action>)
    ensures var entries := Run(sha, actions).entries;
      && Chain(sha, entries)
      && Verification(sha, entries, None) == Intact(|entries|)
      && HeadOf(entries).Some?
      && Verification(sha, entries, HeadOf(entries)) == Intact(|entries|)
  {
    hide Run, Chain, FirstBad;
    RunKeeps(sha, actions);
    ChainHasHead(sha, Run(sha, actions).entries);
    IntactIsChain(sha, Run(sha, actions).entries);
  }

  /** A writer that succeeded has exactly one entry, carrying what it asked; any other has none. */
  lemma OneEntryEach(sha: Sha, actions: seq<Action>, i: nat)
    requires i < |Run(sha, actions).writers|
    ensures var s := Run(sha, actions); var w := s.writers[i];
      && |s.authors| == |s.entries|
      && (forall k :: 0 <= k < |s.authors| ==> (s.authors[k] == i <==> w.Wrote? && w.at == k))
      && (w.Wrote? ==> w.at < |s.entries| && Carries(s.entries[w.at], w.draft))
  {
    hide Run, Chain, Carries;
    RunKeeps(sha, actions);
    var s := Run(sha, actions);
    WriterIsOk(sha, s, i);
    forall k | 0 <= k < |s.authors|
      ensures s.authors[k] == i <==> s.writers[i].Wrote? && s.writers[i].at == k
    {
      assert AuthorOk(s, k);
    }
  }

  /** An attempt is turned away only if a rival committed since the tip was read, and a
      writer that gives up has seen at least one rival commit per attempt. */
  lemma FailureMeansRivals(sha: Sha, actions: seq<Action>, i: nat, stamp: JsString)
    requires var s := Run(sha, actions); i < |s.writers| && s.writers[i].Holding?
    ensures var s := Run(sha, actions); var w := s.writers[i]; var w' := Attempt(sha, s, i, stamp).writers[i];
      && (w'.Holding? || w'.Lost? ==> w.seen < |s.entries|)
      && (w'.Lost? ==> w.began + MAX_APPEND_ATTEMPTS <= |s.entries|)
      && (w.seen == |s.entries| ==> w'.Wrote? || w'.Refused?)
  {
    hide Run, Chain, Built, TipOf;
    RunKeeps(sha, actions);
    var s := Run(sha, actions);
    WriterIsOk(sha, s, i);
    TipIsFresh(sha, s, i);
  }

  /** History is never rewritten. */
  lemma {:induction false} LedgerOnlyGrows(sha: Sha, actions: seq<Action>, more: seq<Action>)
    ensures Run(sha, actions).entries <= Run(sha, actions + more).entries
  {
    hide Attempt, Run;
    if more == [] {
      assert actions + more == actions;
    } else {
      var n := |more| - 1;
      LedgerOnlyGrows(sha, actions, more[..n]);
      assert (actions + more)[..|actions + more| - 1] == actions + more[..n];
      RunUnfolds(sha, actions + more);
      StepGrows(sha, Run(sha, actions + more[..n]), more[n]);
    }
  }

  lemma RunUnfolds(sha: Sha, actions: seq<Action>)
    requires actions != []
    ensures Run(sha, actions) == Step(sha, Run(sha, actions[..|actions| - 1]), actions[|actions| - 1])
  {
  }

  lemma StepGrows(sha: Sha, s: World, action: Action)
    ensures s.entries <= Step(sha, s, action).entries
  {
    hide Built, TipOf;
  }

  // ---------- One writer's loop, with rivals between its trips ----------

  class MemoryLedgerStore {
    var entries: seq<Entry>

    constructor ()
      ensures entries == []
    {
      entries := [];
    }

    /** Compare-and-append, in one synchronous body. */
    method Append(entry: Entry, expected: Tip) returns (ok: bool, tip: Tip)
      modifies this
      ensures ok <==> TipOf(old(entries)) == expected
      ensures entries == if ok then old(entries) + [entry] else old(entries)
      ensures tip == TipOf(entries)
    {
      var tail := if |entries| > 0 then Tip(entries[|entries| - 1].number, entries[|entries| - 1].hash) else NO_TIP;
      if tail.number != expected.number || tail.hash != expected.hash {
        return false, tail;
      }
      entries := entries + [entry];
      return true, Tip(entry.number, entry.hash);
    }
  }

  datatype Stamped = Stamped(draft: Draft, stamp: JsString)

  datatype AppendResult = Appended(entry: Entry) | NotCanonicalizable | LostTheRace

  class AuditLedger {
    const store: MemoryLedgerStore
    const sha: Sha

    constructor (store: MemoryLedgerStore, sha: Sha)
      ensures this.store == store && this.sha == sha
    {
      this.store, this.sha := store, sha;
    }

    /** Other writers commit, each chaining onto the tip it finds. */
    method Rivals(drafts: seq<Stamped>) returns (ghost committed: seq<Entry>)
      requires Chain(sha, store.entries)
      modifies store
      ensures Chain(sha, store.entries) && store.entries == old(store.entries) + committed
    {
      hide Chain, Built;
      committed := [];
      var k := 0;
      while k < |drafts|
        invariant 0 <= k <= |drafts|
        invariant Chain(sha, store.entries) && store.entries == old(store.entries) + committed
      {
        var tip := TipOf(store.entries);
        var built := Built(sha, drafts[k].draft, tip, drafts[k].stamp);
        if built.Some? {
          BuiltExtends(sha, drafts[k].draft, store.entries, drafts[k].stamp);
          var ok, _ := store.Append(built.value, tip);
          committed := committed + [built.value];
        }
        k := k + 1;
      }
    }

    /** The retry loop; `clock` and `rivals` say what happens at each attempt. */
    method Append(draft: Draft, clock: nat -> JsString, rivals: nat -> seq<Stamped>)
      returns (result: AppendResult, ghost others: seq<Entry>)
      requires Chain(sha, store.entries)
      modifies store
      ensures Chain(sha, store.entries)
      ensures store.entries == old(store.entries) + others + if result.Appended? then [result.entry] else []
      ensures result.Appended? ==> Carries(result.entry, draft)
      ensures result.LostTheRace? ==> |others| >= MAX_APPEND_ATTEMPTS
      ensures result.NotCanonicalizable? <==> !Recordable(draft)
    {
      hide *;
      var tip := TipOf(store.entries);
      others := [];
      ghost var seen := |store.entries|;
      assert store.entries[..seen] == store.entries;
      var attempt := 0;
      while attempt < MAX_APPEND_ATTEMPTS
        invariant 0 <= attempt <= MAX_APPEND_ATTEMPTS
        invariant Chain(sha, store.entries) && store.entries == old(store.entries) + others
        invariant seen <= |store.entries| && tip == TipOf(store.entries[..seen])
        invariant |old(store.entries)| + attempt <= seen
        invariant attempt > 0 ==> Recordable(draft)
      {
        ghost var committed := Rivals(rivals(attempt));
        others := others + committed;
        var built := Built(sha, draft, tip, clock(attempt));
        BuiltIffRecordable(sha, draft, tip, clock(attempt));
        if built.None? {
          return NotCanonicalizable, others;
        }
        ghost var before := store.entries;
        var ok, actual := store.Append(built.value, tip);
        if ok {
          BuiltExtends(sha, draft, before, clock(attempt));
          BuiltHash(sha, draft, tip, clock(attempt));
          return Appended(built.value), others;
        }
        tip := actual;
        seen := |store.entries|;
        assert store.entries[..seen] == store.entries;
        attempt := attempt + 1;
      }
      SomeAttempts();
      return LostTheRace, others;
    }
  }
}

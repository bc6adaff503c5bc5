/** Rolling spend windows: the double-precision check against its exact-integer meaning. */
module SpendWindow {
  import opened Prelude

  /** A configured window. `code` is chosen by the operator. */
  datatype Window = Window(code: string, windowMs: Number, capMinor: Option<Number>, maxCount: Option<Number>, dimension: Option<string>)

  type Amount = n: nat | n <= MAX_SAFE_INTEGER

  /** What a window sees of a spend record. */
  datatype Spend = Spend(amountMinor: Amount, ms: int, merchantKey: Option<string>)

  const WINDOW_INVALID := "SPEND_WINDOW_INVALID"
  const AMOUNT_INVALID := "SPEND_AMOUNT_INVALID"
  const KEY_MISSING := "MERCHANT_KEY_MISSING"

  // ---------- Double-precision addition of non-negative integers ----------

  const TWO_53: nat := 0x20_0000_0000_0000
  const TWO_52: nat := 0x10_0000_0000_0000

  /** The spacing of doubles at n. */
  function Ulp(n: nat): (ulp: nat)
    ensures ulp >= 1
  {
    if n < TWO_53 then 1 else 2 * Ulp(n / 2)
  }

  /** The double nearest to n, ties to even. */
  function Round(n: nat): nat {
    var ulp := Ulp(n);
    var q, r := n / ulp, n % ulp;
    if 2 * r < ulp || (2 * r == ulp && q % 2 == 0) then q * ulp else (q + 1) * ulp
  }

  function FloatAdd(a: nat, b: nat): nat {
    Round(a + b)
  }

  lemma {:induction false} UlpIsSmall(n: nat)
    requires n >= TWO_53
    ensures Ulp(n) >= 2 && Ulp(n) * TWO_52 <= n
  {
    if n / 2 >= TWO_53 {
      UlpIsSmall(n / 2);
    }
  }

  /** Small sums are exact, and no large sum rounds back below 2^53. */
  lemma RoundAroundTwo53(n: nat)
    ensures n < TWO_53 ==> Round(n) == n
    ensures n >= TWO_53 ==> Round(n) >= TWO_53
  {
    if n >= TWO_53 {
      UlpIsSmall(n);
      var ulp := Ulp(n);
      QuotientAtLeast(n, ulp, TWO_52);
      ProductAtLeast(n / ulp, ulp, TWO_52);
    }
  }

  lemma QuotientAtLeast(n: nat, d: nat, q: nat)
    requires d >= 1 && d * q <= n
    ensures n / d >= q
  {
    assert n == d * (n / d) + n % d;
    assert d * (q - 1) == d * q - d;
    if n / d <= q - 1 {
      ProductMonotone(d, n / d, q - 1);
    }
  }

  lemma ProductMonotone(d: nat, a: int, b: int)
    requires a <= b
    ensures d * a <= d * b
  {
  }

  lemma ProductAtLeast(q: nat, ulp: nat, k: nat)
    requires q >= k && ulp >= 2
    ensures q * ulp >= 2 * k && (q + 1) * ulp >= 2 * k
  {
    assert q * ulp >= q * 2;
    assert (q + 1) * ulp == q * ulp + ulp;
  }

  // ---------- Configuration ----------

  predicate PerMerchant(w: Window) {
    w.dimension == Some("merchant")
  }

  /** The window can enforce something, exactly as configured. */
  predicate WellFormed(w: Window) {
    && w.windowMs.Finite? && w.windowMs.value > 0.0
    && (w.capMinor.Some? ==> SafeInteger(w.capMinor.value) && w.capMinor.value.value.Floor >= 0)
    && (w.maxCount.Some? ==> SafeInteger(w.maxCount.value) && w.maxCount.value.value.Floor >= 1)
    && (w.capMinor.Some? || w.maxCount.Some?)
    && (w.dimension.Some? ==> w.dimension.value == "scope" || w.dimension.value == "merchant")
  }

  predicate AllWellFormed(windows: seq<Window>) {
    forall w :: w in windows ==> WellFormed(w)
  }

  function Cap(w: Window): int
    requires WellFormed(w) && w.capMinor.Some?
  {
    w.capMinor.value.value.Floor
  }

  function MaxCount(w: Window): int
    requires WellFormed(w) && w.maxCount.Some?
  {
    w.maxCount.value.value.Floor
  }

  // ---------- What a window counts ----------

  predicate Counts(w: Window, s: Spend, nowMs: int, key: Option<string>)
    requires w.windowMs.Finite?
  {
    && s.ms as real > nowMs as real - w.windowMs.value
    && (PerMerchant(w) && s.merchantKey.Some? ==> s.merchantKey == key)
  }

  function Spent(w: Window, rows: seq<Spend>, nowMs: int, key: Option<string>): (total: nat)
    requires w.windowMs.Finite?
  {
    if rows == [] then 0 else
    Spent(w, rows[..|rows| - 1], nowMs, key)
      + (if Counts(w, rows[|rows| - 1], nowMs, key) then rows[|rows| - 1].amountMinor else 0)
  }

  function Tally(w: Window, rows: seq<Spend>, nowMs: int, key: Option<string>): (count: nat)
    requires w.windowMs.Finite?
  {
    if rows == [] then 0 else
    Tally(w, rows[..|rows| - 1], nowMs, key)
      + (if Counts(w, rows[|rows| - 1], nowMs, key) then 1 else 0)
  }

  // ---------- The verdict, in exact integers ----------

  predicate OverCap(w: Window, spent: nat, amount: Amount)
    requires WellFormed(w)
  {
    w.capMinor.Some? && spent + amount > Cap(w)
  }

  predicate OverCount(w: Window, count: nat)
    requires WellFormed(w)
  {
    w.maxCount.Some? && count + 1 > MaxCount(w)
  }

  function Refusal(w: Window, rows: seq<Spend>, amount: Amount, nowMs: int, key: Option<string>): Option<string>
    requires WellFormed(w)
  {
    if PerMerchant(w) && key.None? then Some(KEY_MISSING)
    else if OverCap(w, Spent(w, rows, nowMs, key), amount) || OverCount(w, Tally(w, rows, nowMs, key)) then Some(w.code)
    else None
  }

  function FirstRefusal(windows: seq<Window>, rows: seq<Spend>, amount: Amount, nowMs: int, key: Option<string>): Option<string>
    requires AllWellFormed(windows)
  {
    if windows == [] then None
    else
      var first := Refusal(windows[0], rows, amount, nowMs, key);
      if first.Some? then first else FirstRefusal(windows[1..], rows, amount, nowMs, key)
  }

  predicate UsableAmount(amount: Number) {
    SafeInteger(amount) && amount.value.Floor >= 0
  }

  function Verdict(windows: seq<Window>, rows: seq<Spend>, amount: Number, nowMs: int, key: Option<string>): Option<string> {
    if !AllWellFormed(windows) then Some(WINDOW_INVALID)
    else if !UsableAmount(amount) then Some(AMOUNT_INVALID)
    else FirstRefusal(windows, rows, amount.value.Floor, nowMs, key)
  }

  // ---------- The loop over doubles decides the same ----------

  /** The running double agrees with the exact sum while that is safe, and stays unsafe after. */
  predicate Tracks(total: nat, exact: nat) {
    if exact < TWO_53 then total == exact else total >= TWO_53
  }

  lemma TracksNext(total: nat, exact: nat, amount: Amount)
    requires Tracks(total, exact)
    ensures Tracks(FloatAdd(total, amount), exact + amount)
  {
    RoundAroundTwo53(total + amount);
  }

  /** The guarded comparison on doubles is the comparison on integers. */
  lemma CapCheckIsExact(w: Window, total: nat, exact: nat, amount: Amount)
    requires WellFormed(w) && w.capMinor.Some? && Tracks(total, exact)
    ensures (total > MAX_SAFE_INTEGER || FloatAdd(total, amount) > Cap(w)) <==> OverCap(w, exact, amount)
  {
    RoundAroundTwo53(total + amount);
  }

  method WindowRefusal(w: Window, existing: seq<Spend>, amount: Amount, nowMs: int, key: Option<string>) returns (code: Option<string>)
    requires WellFormed(w)
    ensures code == Refusal(w, existing, amount, nowMs, key)
  {
    hide Round, FloatAdd;
    if PerMerchant(w) && key.None? {
      return Some(KEY_MISSING);
    }
    var since := nowMs as real - w.windowMs.value;
    var totalMinor: nat, count: nat := 0, 0;
    var i := 0;
    while i < |existing|
      invariant 0 <= i <= |existing|
      invariant Tracks(totalMinor, Spent(w, existing[..i], nowMs, key))
      invariant count == Tally(w, existing[..i], nowMs, key)
    {
      var r := existing[i];
      assert existing[..i + 1][..i] == existing[..i];
      i := i + 1;
      if r.ms as real <= since {
        continue;
      }
      if PerMerchant(w) && r.merchantKey.Some? && r.merchantKey != key {
        continue;
      }
      TracksNext(totalMinor, Spent(w, existing[..i - 1], nowMs, key), r.amountMinor);
      totalMinor := FloatAdd(totalMinor, r.amountMinor);
      count := count + 1;
    }
    assert existing[..|existing|] == existing;
    if w.capMinor.Some? {
      CapCheckIsExact(w, totalMinor, Spent(w, existing, nowMs, key), amount);
      if totalMinor > MAX_SAFE_INTEGER || FloatAdd(totalMinor, amount) > Cap(w) {
        return Some(w.code);
      }
    }
    code := if w.maxCount.Some? && count + 1 > MaxCount(w) then Some(w.code) else None;
  }

  method FirstViolatedWindow(windows: seq<Window>, existing: seq<Spend>, amount: Number, nowMs: int, key: Option<string>)
    returns (code: Option<string>)
    ensures code == Verdict(windows, existing, amount, nowMs, key)
  {
    hide WellFormed, Refusal;
    var i := 0;
    while i < |windows|
      invariant 0 <= i <= |windows|
      invariant forall j :: 0 <= j < i ==> WellFormed(windows[j])
    {
      if !WellFormed(windows[i]) {
        return Some(WINDOW_INVALID);
      }
      i := i + 1;
    }
    if !UsableAmount(amount) {
      return Some(AMOUNT_INVALID);
    }
    i := 0;
    while i < |windows|
      invariant 0 <= i <= |windows|
      invariant FirstRefusal(windows, existing, amount.value.Floor, nowMs, key)
        == FirstRefusal(windows[i..], existing, amount.value.Floor, nowMs, key)
    {
      assert windows[i..][1..] == windows[i + 1..];
      var refusal := WindowRefusal(windows[i], existing, amount.value.Floor, nowMs, key);
      if refusal.Some? {
        return refusal;
      }
      i := i + 1;
    }
    return None;
  }

  // ---------- What the verdict means, window by window ----------

  /** A window counts a spend that is younger than its length and, for a merchant window, of the
      request's merchant or of no known one. */
  predicate InWindow(w: Window, s: Spend, nowMs: int, key: Option<string>)
    requires w.windowMs.Finite?
  {
    && s.ms as real > nowMs as real - w.windowMs.value
    && (w.dimension == Some("merchant") ==> s.merchantKey == None || s.merchantKey == key)
  }

  /** The places of the spends it counts. */
  function Places(w: Window, rows: seq<Spend>, nowMs: int, key: Option<string>): set<nat>
    requires w.windowMs.Finite?
  {
    set k | 0 <= k < |rows| && InWindow(w, rows[k], nowMs, key)
  }

  /** What is spent at these places. */
  function SumOver(rows: seq<Spend>, places: set<nat>): nat {
    if rows == [] then 0
    else SumOver(rows[..|rows| - 1], places) + if |rows| - 1 in places then rows[|rows| - 1].amountMinor else 0
  }

  /** One more payment would take the window above its cap, or above its count. */
  predicate Exceeded(w: Window, rows: seq<Spend>, amount: Amount, nowMs: int, key: Option<string>)
    requires WellFormed(w)
  {
    var places := Places(w, rows, nowMs, key);
    || (w.capMinor.Some? && SumOver(rows, places) + amount > w.capMinor.value.value.Floor)
    || (w.maxCount.Some? && |places| + 1 > w.maxCount.value.value.Floor)
  }

  predicate Blocks(w: Window, rows: seq<Spend>, amount: Amount, nowMs: int, key: Option<string>)
    requires WellFormed(w)
  {
    (w.dimension == Some("merchant") && key.None?) || Exceeded(w, rows, amount, nowMs, key)
  }

  lemma {:induction false} SumOverMore(rows: seq<Spend>, places: set<nat>, more: set<nat>)
    requires forall k :: k in more && k !in places ==> k >= |rows|
    requires places <= more
    ensures SumOver(rows, more) == SumOver(rows, places)
  {
    if rows != [] {
      SumOverMore(rows[..|rows| - 1], places, more);
    }
  }

  lemma SumOverSnoc(rows: seq<Spend>, last: Spend, places: set<nat>, more: set<nat>)
    requires places <= more <= places + {|rows|} && |rows| !in places
    ensures SumOver(rows + [last], more) == SumOver(rows, places) + if |rows| in more then last.amountMinor else 0
  {
    assert (rows + [last])[..|rows|] == rows;
    SumOverMore(rows, places, more);
  }

  lemma PlacesSnoc(w: Window, rows: seq<Spend>, last: Spend, nowMs: int, key: Option<string>)
    requires w.windowMs.Finite?
    ensures Places(w, rows + [last], nowMs, key)
      == Places(w, rows, nowMs, key) + if InWindow(w, last, nowMs, key) then {|rows|} else {}
    ensures |rows| !in Places(w, rows, nowMs, key)
  {
    hide InWindow;
    var all := rows + [last];
    assert all[|rows|] == last;
    assert forall k :: 0 <= k < |rows| ==> all[k] == rows[k];
  }

  /** The running totals of the loop are the totals over those places. */
  lemma {:induction false} TotalsOverPlaces(w: Window, rows: seq<Spend>, nowMs: int, key: Option<string>)
    requires w.windowMs.Finite?
    ensures Spent(w, rows, nowMs, key) == SumOver(rows, Places(w, rows, nowMs, key))
    ensures Tally(w, rows, nowMs, key) == |Places(w, rows, nowMs, key)|
  {
    if rows == [] {
      assert Places(w, rows, nowMs, key) == {};
    } else {
      hide Places, InWindow, Counts;
      var before, last := rows[..|rows| - 1], rows[|rows| - 1];
      assert rows == before + [last];
      TotalsOverPlaces(w, before, nowMs, key);
      PlacesSnoc(w, before, last, nowMs, key);
      InWindowCounts(w, last, nowMs, key);
      SumOverMore(before, Places(w, before, nowMs, key), Places(w, rows, nowMs, key));
    }
  }

  lemma InWindowCounts(w: Window, s: Spend, nowMs: int, key: Option<string>)
    requires w.windowMs.Finite?
    ensures Counts(w, s, nowMs, key) <==> InWindow(w, s, nowMs, key)
  {
  }

  lemma BlocksIff(w: Window, rows: seq<Spend>, amount: Amount, nowMs: int, key: Option<string>)
    requires WellFormed(w)
    ensures Refusal(w, rows, amount, nowMs, key).Some? <==> Blocks(w, rows, amount, nowMs, key)
    ensures Blocks(w, rows, amount, nowMs, key) ==>
      Refusal(w, rows, amount, nowMs, key).value == if w.dimension == Some("merchant") && key.None? then KEY_MISSING else w.code
  {
    hide Spent, Tally, Places, SumOver;
    TotalsOverPlaces(w, rows, nowMs, key);
  }

  predicate SomeBlocks(windows: seq<Window>, rows: seq<Spend>, amount: Amount, nowMs: int, key: Option<string>)
    requires AllWellFormed(windows)
  {
    exists k :: 0 <= k < |windows| && Blocks(windows[k], rows, amount, nowMs, key)
  }

  lemma {:induction false} FirstRefusalIff(windows: seq<Window>, rows: seq<Spend>, amount: Amount, nowMs: int, key: Option<string>)
    requires AllWellFormed(windows)
    ensures FirstRefusal(windows, rows, amount, nowMs, key).Some? <==> SomeBlocks(windows, rows, amount, nowMs, key)
  {
    hide Refusal, Blocks, WellFormed;
    if windows != [] {
      FirstRefusalIff(windows[1..], rows, amount, nowMs, key);
      BlocksIff(windows[0], rows, amount, nowMs, key);
      SomeBlocksCons(windows, rows, amount, nowMs, key);
    }
  }

  lemma SomeBlocksCons(windows: seq<Window>, rows: seq<Spend>, amount: Amount, nowMs: int, key: Option<string>)
    requires AllWellFormed(windows) && windows != []
    ensures SomeBlocks(windows, rows, amount, nowMs, key)
      <==> Blocks(windows[0], rows, amount, nowMs, key) || SomeBlocks(windows[1..], rows, amount, nowMs, key)
  {
    hide Blocks, WellFormed;
    var rest := windows[1..];
    if k :| 0 <= k < |rest| && Blocks(rest[k], rows, amount, nowMs, key) {
      assert Blocks(windows[k + 1], rows, amount, nowMs, key);
    }
    if k :| 0 <= k < |windows| && Blocks(windows[k], rows, amount, nowMs, key) {
      assert k > 0 ==> Blocks(rest[k - 1], rows, amount, nowMs, key);
    }
  }

  /** A reserve is refused exactly when a window or the amount is malformed, or some window asks
      for a merchant that is not given, or would be exceeded: neither more nor less. */
  lemma RefusedIff(windows: seq<Window>, rows: seq<Spend>, amount: Number, nowMs: int, key: Option<string>)
    ensures Verdict(windows, rows, amount, nowMs, key).Some? <==>
      || !AllWellFormed(windows)
      || !(SafeInteger(amount) && amount.value >= 0.0)
      || SomeBlocks(windows, rows, amount.value.Floor, nowMs, key)
  {
    hide WellFormed;
    if AllWellFormed(windows) && UsableAmount(amount) {
      FirstRefusalIff(windows, rows, amount.value.Floor, nowMs, key);
    }
  }

  lemma {:induction false} FirstToBlock(windows: seq<Window>, rows: seq<Spend>, amount: Amount, nowMs: int, key: Option<string>) returns (k: nat)
    requires AllWellFormed(windows) && SomeBlocks(windows, rows, amount, nowMs, key)
    ensures k < |windows| && Blocks(windows[k], rows, amount, nowMs, key)
    ensures forall j :: 0 <= j < k ==> !Blocks(windows[j], rows, amount, nowMs, key)
    ensures FirstRefusal(windows, rows, amount, nowMs, key)
      == Some(if windows[k].dimension == Some("merchant") && key.None? then KEY_MISSING else windows[k].code)
  {
    hide Refusal, Blocks, WellFormed;
    BlocksIff(windows[0], rows, amount, nowMs, key);
    if Blocks(windows[0], rows, amount, nowMs, key) {
      k := 0;
    } else {
      SomeBlocksCons(windows, rows, amount, nowMs, key);
      var l := FirstToBlock(windows[1..], rows, amount, nowMs, key);
      k := l + 1;
      forall j | 0 <= j < k
        ensures !Blocks(windows[j], rows, amount, nowMs, key)
      {
        assert j > 0 ==> windows[j] == windows[1..][j - 1];
      }
    }
  }

  /** The code of a refusal: malformed windows first, then a malformed amount, then the first
      window that blocks, in the order given. */
  lemma RefusalNamesFirst(windows: seq<Window>, rows: seq<Spend>, amount: Number, nowMs: int, key: Option<string>)
    ensures !AllWellFormed(windows) ==> Verdict(windows, rows, amount, nowMs, key) == Some(WINDOW_INVALID)
    ensures AllWellFormed(windows) && !UsableAmount(amount) ==> Verdict(windows, rows, amount, nowMs, key) == Some(AMOUNT_INVALID)
    ensures AllWellFormed(windows) && UsableAmount(amount) && SomeBlocks(windows, rows, amount.value.Floor, nowMs, key) ==>
      exists k :: 0 <= k < |windows|
        && Blocks(windows[k], rows, amount.value.Floor, nowMs, key)
        && (forall j :: 0 <= j < k ==> !Blocks(windows[j], rows, amount.value.Floor, nowMs, key))
        && Verdict(windows, rows, amount, nowMs, key)
           == Some(if windows[k].dimension == Some("merchant") && key.None? then KEY_MISSING else windows[k].code)
  {
    hide WellFormed, Blocks;
    if AllWellFormed(windows) && UsableAmount(amount) && SomeBlocks(windows, rows, amount.value.Floor, nowMs, key) {
      var k := FirstToBlock(windows, rows, amount.value.Floor, nowMs, key);
    }
  }

  /** Spends of another merchant never change what a merchant window says. */
  lemma OtherMerchantsDoNotMatter(w: Window, before: seq<Spend>, other: Spend, later: seq<Spend>, amount: Number, nowMs: int, key: Option<string>)
    requires WellFormed(w) && w.dimension == Some("merchant")
    requires other.merchantKey.Some? && other.merchantKey != key
    ensures Verdict([w], before + [other] + later, amount, nowMs, key) == Verdict([w], before + later, amount, nowMs, key)
  {
    hide Spent, Tally;
    if UsableAmount(amount) {
      var rows := before + [other] + later;
      assert rows[..|before|] + rows[|before| + 1..] == before + later;
      assert rows[|before|] == other;
      TotalsOfRemoval(w, rows, |before|, nowMs, key);
      OneWindow(w, rows, amount.value.Floor, nowMs, key);
      OneWindow(w, before + later, amount.value.Floor, nowMs, key);
    }
  }

  lemma OneWindow(w: Window, rows: seq<Spend>, amount: Amount, nowMs: int, key: Option<string>)
    requires WellFormed(w)
    ensures AllWellFormed([w]) && FirstRefusal([w], rows, amount, nowMs, key) == Refusal(w, rows, amount, nowMs, key)
  {
    hide Spent, Tally;
    assert [w][0] == w && [w][1..] == [];
    assert FirstRefusal([], rows, amount, nowMs, key) == None;
  }

  // ---------- Only the multiset of rows matters ----------

  lemma {:induction false} SpentConcat(w: Window, a: seq<Spend>, b: seq<Spend>, nowMs: int, key: Option<string>)
    requires w.windowMs.Finite?
    ensures Spent(w, a + b, nowMs, key) == Spent(w, a, nowMs, key) + Spent(w, b, nowMs, key)
    ensures Tally(w, a + b, nowMs, key) == Tally(w, a, nowMs, key) + Tally(w, b, nowMs, key)
  {
    if b == [] {
      assert a + b == a;
    } else {
      assert (a + b)[..|a + b| - 1] == a + b[..|b| - 1];
      SpentConcat(w, a, b[..|b| - 1], nowMs, key);
    }
  }

  predicate SameTotals(w: Window, a: seq<Spend>, b: seq<Spend>, nowMs: int, key: Option<string>) {
    w.windowMs.Finite? ==>
      Spent(w, a, nowMs, key) == Spent(w, b, nowMs, key) && Tally(w, a, nowMs, key) == Tally(w, b, nowMs, key)
  }

  lemma {:induction false} TotalsOfPermutation(w: Window, a: seq<Spend>, b: seq<Spend>, nowMs: int, key: Option<string>)
    requires multiset(a) == multiset(b)
    ensures SameTotals(w, a, b, nowMs, key)
    decreases |a|
  {
    if a == [] {
      assert |multiset(b)| == 0;
    } else if w.windowMs.Finite? {
      var n, last := |a| - 1, a[|a| - 1];
      assert a == a[..n] + [last];
      assert last in multiset(a) && last in multiset(b);
      var k :| 0 <= k < |b| && b[k] == last;
      MultisetWithout(a, b, k);
      TotalsOfPermutation(w, a[..n], b[..k] + b[k + 1..], nowMs, key);
      TotalsOfRemoval(w, b, k, nowMs, key);
    }
  }

  lemma MultisetWithout(a: seq<Spend>, b: seq<Spend>, k: nat)
    requires a != [] && multiset(a) == multiset(b) && k < |b| && b[k] == a[|a| - 1]
    ensures multiset(a[..|a| - 1]) == multiset(b[..k] + b[k + 1..])
  {
    var rest := b[..k] + b[k + 1..];
    assert a == a[..|a| - 1] + [b[k]];
    assert multiset(a) == multiset(a[..|a| - 1]) + multiset{b[k]};
    assert b == b[..k] + ([b[k]] + b[k + 1..]);
    assert multiset(b) == multiset(rest) + multiset{b[k]};
    CancelOne(multiset(a[..|a| - 1]), multiset(rest), b[k]);
  }

  lemma CancelOne(x: multiset<Spend>, y: multiset<Spend>, e: Spend)
    requires x + multiset{e} == y + multiset{e}
    ensures x == y
  {
    assert x == x + multiset{e} - multiset{e};
    assert y == y + multiset{e} - multiset{e};
  }

  lemma TotalsOfRemoval(w: Window, b: seq<Spend>, k: nat, nowMs: int, key: Option<string>)
    requires w.windowMs.Finite? && k < |b|
    ensures Spent(w, b, nowMs, key) == Spent(w, b[..k] + b[k + 1..], nowMs, key)
      + if Counts(w, b[k], nowMs, key) then b[k].amountMinor else 0
    ensures Tally(w, b, nowMs, key) == Tally(w, b[..k] + b[k + 1..], nowMs, key)
      + if Counts(w, b[k], nowMs, key) then 1 else 0
  {
    assert b == b[..k + 1] + b[k + 1..];
    assert b[..k + 1][..k] == b[..k];
    SpentConcat(w, b[..k + 1], b[k + 1..], nowMs, key);
    SpentConcat(w, b[..k], b[k + 1..], nowMs, key);
  }

  lemma {:induction false} RefusalsOfSameTotals(windows: seq<Window>, a: seq<Spend>, b: seq<Spend>, amount: Amount, nowMs: int, key: Option<string>)
    requires AllWellFormed(windows)
    requires forall w :: w in windows ==> SameTotals(w, a, b, nowMs, key)
    ensures FirstRefusal(windows, a, amount, nowMs, key) == FirstRefusal(windows, b, amount, nowMs, key)
  {
    hide Spent, Tally;
    if windows != [] {
      assert windows[0] in windows;
      RefusalsOfSameTotals(windows[1..], a, b, amount, nowMs, key);
    }
  }

  lemma VerdictOfPermutation(windows: seq<Window>, a: seq<Spend>, b: seq<Spend>, amount: Number, nowMs: int, key: Option<string>)
    requires multiset(a) == multiset(b)
    ensures Verdict(windows, a, amount, nowMs, key) == Verdict(windows, b, amount, nowMs, key)
  {
    hide SameTotals, WellFormed;
    if AllWellFormed(windows) && UsableAmount(amount) {
      forall w | w in windows
        ensures SameTotals(w, a, b, nowMs, key)
      {
        TotalsOfPermutation(w, a, b, nowMs, key);
      }
      RefusalsOfSameTotals(windows, a, b, amount.value.Floor, nowMs, key);
    }
  }

  // ---------- Rows outside the widest window do not matter ----------

  /** `Math.max` over the window lengths, starting from zero. */
  function Widest(windows: seq<Window>): (ms: real)
    requires AllWellFormed(windows)
    ensures ms >= 0.0
  {
    if windows == [] then 0.0
    else
      var rest := Widest(windows[..|windows| - 1]);
      var w := windows[|windows| - 1];
      assert WellFormed(w);
      if w.windowMs.value > rest then w.windowMs.value else rest
  }

  lemma {:induction false} WidestCovers(windows: seq<Window>, w: Window)
    requires AllWellFormed(windows) && w in windows
    ensures w.windowMs.Finite? && w.windowMs.value <= Widest(windows)
  {
    assert WellFormed(w);
    if w != windows[|windows| - 1] {
      WidestCovers(windows[..|windows| - 1], w);
    }
  }

  function Recent(rows: seq<Spend>, since: real): (kept: seq<Spend>)
    ensures forall r :: r in kept ==> r in rows
  {
    if rows == [] then []
    else
      var before, r := Recent(rows[..|rows| - 1], since), rows[|rows| - 1];
      if r.ms as real > since then before + [r] else before
  }

  lemma {:induction false} RecentTotals(w: Window, rows: seq<Spend>, since: real, nowMs: int, key: Option<string>)
    requires w.windowMs.Finite? && since <= nowMs as real - w.windowMs.value
    ensures SameTotals(w, rows, Recent(rows, since), nowMs, key)
  {
    if rows != [] {
      var n := |rows| - 1;
      RecentTotals(w, rows[..n], since, nowMs, key);
      var before := Recent(rows[..n], since);
      assert (before + [rows[n]])[..|before|] == before;
    }
  }

  lemma VerdictOfRecent(windows: seq<Window>, rows: seq<Spend>, amount: Number, nowMs: int, key: Option<string>)
    requires AllWellFormed(windows)
    ensures Verdict(windows, rows, amount, nowMs, key)
      == Verdict(windows, Recent(rows, nowMs as real - Widest(windows)), amount, nowMs, key)
  {
    hide SameTotals, Recent, WellFormed;
    if UsableAmount(amount) {
      var recent := Recent(rows, nowMs as real - Widest(windows));
      forall w | w in windows
        ensures SameTotals(w, rows, recent, nowMs, key)
      {
        WidestCovers(windows, w);
        RecentTotals(w, rows, nowMs as real - Widest(windows), nowMs, key);
      }
      RefusalsOfSameTotals(windows, rows, recent, amount.value.Floor, nowMs, key);
    }
  }
}

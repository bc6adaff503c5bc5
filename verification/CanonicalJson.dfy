/** The canonical JSON serializer: distinct values give distinct text. */
module CanonicalJson {
  import opened Prelude
  import opened JsonText
  import opened JsonNumber

  /** A JavaScript value; an object is the map of its own enumerable properties. `Exotic`
      stands for bigints, functions, symbols and every object that is not plain. */
  datatype Value =
    | Null
    | Undefined
    | Bool(b: bool)
    | Num(n: Double)
    | Str(s: JsString)
    | Arr(items: seq<Value>)
    | Obj(props: map<JsString, Value>)
    | Exotic

  const MAX_DEPTH: nat := 256

  const COMMA: CodeUnit := 0x2C
  const COLON: CodeUnit := 0x3A
  const OPEN_BRACKET: CodeUnit := 0x5B
  const CLOSE_BRACKET: CodeUnit := 0x5D
  const OPEN_BRACE: CodeUnit := 0x7B
  const CLOSE_BRACE: CodeUnit := 0x7D

  // ---------- Key order ----------

  /** Code-unit order, as `sort` compares strings. */
  predicate Leq(a: JsString, b: JsString) {
    a == [] || (b != [] && (a[0] < b[0] || (a[0] == b[0] && Leq(a[1..], b[1..]))))
  }

  lemma {:induction false} LeqTotal(a: JsString, b: JsString)
    ensures Leq(a, b) || Leq(b, a)
  {
    if a != [] && b != [] {
      LeqTotal(a[1..], b[1..]);
    }
  }

  lemma {:induction false} LeqAntisymmetric(a: JsString, b: JsString)
    requires Leq(a, b) && Leq(b, a)
    ensures a == b
  {
    if a != [] {
      LeqAntisymmetric(a[1..], b[1..]);
      assert a == [a[0]] + a[1..] && b == [b[0]] + b[1..];
    }
  }

  lemma {:induction false} LeqTransitive(a: JsString, b: JsString, c: JsString)
    requires Leq(a, b) && Leq(b, c)
    ensures Leq(a, c)
  {
    if a != [] && a[0] == b[0] == c[0] {
      LeqTransitive(a[1..], b[1..], c[1..]);
    }
  }

  predicate IsLeast(k: JsString, keys: set<JsString>) {
    k in keys && forall other :: other in keys ==> Leq(k, other)
  }

  lemma {:induction false} LeastExists(keys: set<JsString>)
    requires keys != {}
    ensures exists k :: IsLeast(k, keys)
  {
    var k :| k in keys;
    LeqTotal(k, k);
    if keys == {k} {
      assert IsLeast(k, keys);
    } else {
      LeastExists(keys - {k});
      var least :| IsLeast(least, keys - {k});
      LeqTotal(k, least);
      if Leq(least, k) {
        assert IsLeast(least, keys);
      } else {
        forall other | other in keys
          ensures Leq(k, other)
        {
          if other != k {
            LeqTransitive(k, least, other);
          }
        }
        assert IsLeast(k, keys);
      }
    }
  }

  lemma LeastIsUnique(keys: set<JsString>)
    ensures forall a, b :: IsLeast(a, keys) && IsLeast(b, keys) ==> a == b
  {
    forall a, b | IsLeast(a, keys) && IsLeast(b, keys)
      ensures a == b
    {
      LeqAntisymmetric(a, b);
    }
  }

  /** `Object.keys(v).sort()`. */
  function Sorted(keys: set<JsString>): (sorted: seq<JsString>)
    ensures forall k :: k in sorted <==> k in keys
  {
    if keys == {} then []
    else
      LeastExists(keys);
      LeastIsUnique(keys);
      var k :| IsLeast(k, keys);
      [k] + Sorted(keys - {k})
  }

  predicate Ascending(sorted: seq<JsString>) {
    forall i, j :: 0 <= i < j < |sorted| ==> Leq(sorted[i], sorted[j]) && sorted[i] != sorted[j]
  }

  lemma {:induction false} SortedAscends(keys: set<JsString>)
    ensures Ascending(Sorted(keys))
  {
    if keys != {} {
      LeastExists(keys);
      LeastIsUnique(keys);
      var k :| IsLeast(k, keys);
      SortedAscends(keys - {k});
      var rest := Sorted(keys - {k});
      assert Sorted(keys) == [k] + rest;
      forall j | 0 <= j < |rest|
        ensures Leq(k, rest[j]) && k != rest[j]
      {
        assert rest[j] in rest;
      }
    }
  }

  /** Properties whose value is undefined are skipped. */
  function Kept(props: map<JsString, Value>, keys: seq<JsString>): (kept: seq<JsString>)
    requires forall k :: k in keys ==> k in props
    ensures forall k :: k in kept <==> k in keys && props[k] != Undefined
  {
    if keys == [] then []
    else
      var n := |keys| - 1;
      var before := Kept(props, keys[..n]);
      if props[keys[n]] == Undefined then before else before + [keys[n]]
  }

  function KeysOf(props: map<JsString, Value>): (keys: seq<JsString>)
    ensures forall k :: k in keys <==> k in props && props[k] != Undefined
  {
    Kept(props, Sorted(props.Keys))
  }

  // ---------- What is accepted, and its text ----------

  predicate Accepted(v: Value, depth: nat) {
    depth <= MAX_DEPTH && match v
      case Null | Bool(_) | Str(_) => true
      case Num(n) => IsFinite(n)
      case Arr(items) => forall i :: 0 <= i < |items| ==> Accepted(items[i], depth + 1)
      case Obj(props) => forall k :: k in props ==> props[k] == Undefined || Accepted(props[k], depth + 1)
      case Undefined | Exotic => false
  }

  function Joined(parts: seq<JsString>): JsString {
    if parts == [] then [] else parts[0] + Tail(parts[1..])
  }

  function Tail(parts: seq<JsString>): JsString {
    if parts == [] then [] else [COMMA] + parts[0] + Tail(parts[1..])
  }

  function Entry(key: JsString, text: JsString): JsString {
    Quoted(key) + [COLON] + text
  }

  /** The text of an accepted value (for the others, nothing that is ever used). */
  function Text(v: Value): JsString {
    match v
    case Null => [0x6E, 0x75, 0x6C, 0x6C]
    case Bool(b) => if b then [0x74, 0x72, 0x75, 0x65] else [0x66, 0x61, 0x6C, 0x73, 0x65]
    case Num(n) => if IsFinite(n) then NumberText(n) else []
    case Str(s) => Quoted(s)
    case Arr(items) => [OPEN_BRACKET] + Joined(seq(|items|, i requires 0 <= i < |items| => Text(items[i]))) + [CLOSE_BRACKET]
    case Obj(props) =>
      var keys := KeysOf(props);
      [OPEN_BRACE]
      + Joined(seq(|keys|, i requires 0 <= i < |keys| => assert keys[i] in keys; Entry(keys[i], Text(props[keys[i]]))))
      + [CLOSE_BRACE]
    case Undefined | Exotic => []
  }

  function ItemTexts(items: seq<Value>): (texts: seq<JsString>)
    ensures |texts| == |items| && forall i :: 0 <= i < |items| ==> texts[i] == Text(items[i])
  {
    seq(|items|, i requires 0 <= i < |items| => Text(items[i]))
  }

  function EntryTexts(props: map<JsString, Value>, keys: seq<JsString>): (texts: seq<JsString>)
    requires forall k :: k in keys ==> k in props
    ensures |texts| == |keys| && forall i :: 0 <= i < |keys| ==> texts[i] == Entry(keys[i], Text(props[keys[i]]))
  {
    seq(|keys|, i requires 0 <= i < |keys| => Entry(keys[i], Text(props[keys[i]])))
  }

  function Canonical(v: Value): Option<JsString> {
    if Accepted(v, 0) then Some(Text(v)) else None
  }

  lemma TextOfArr(items: seq<Value>)
    ensures Text(Arr(items)) == [OPEN_BRACKET] + Joined(ItemTexts(items)) + [CLOSE_BRACKET]
  {
    hide Joined;
    assert ItemTexts(items) == seq(|items|, i requires 0 <= i < |items| => Text(items[i]));
  }

  lemma TextOfObj(props: map<JsString, Value>)
    ensures Text(Obj(props)) == [OPEN_BRACE] + Joined(EntryTexts(props, KeysOf(props))) + [CLOSE_BRACE]
  {
    hide Joined, Entry, KeysOf;
    var keys := KeysOf(props);
    assert EntryTexts(props, keys)
      == seq(|keys|, i requires 0 <= i < |keys| => assert keys[i] in keys; Entry(keys[i], Text(props[keys[i]])));
  }

  // ---------- Which values are accepted ----------

  /** A step into a value: an array item, or a property that is not undefined. */
  datatype Place = Item(i: nat) | Property(key: JsString)

  /** What is found in a value at the end of a path. */
  function At(v: Value, path: seq<Place>): Option<Value>
    decreases |path|
  {
    if path == [] then Some(v)
    else match path[0]
      case Item(i) => if v.Arr? && i < |v.items| then At(v.items[i], path[1..]) else None
      case Property(key) => if v.Obj? && key in v.props && v.props[key] != Undefined then At(v.props[key], path[1..]) else None
  }

  /** Something JSON can say: no function, symbol, bigint, class instance, undefined item, NaN or
      infinity. */
  predicate Writable(v: Value) {
    v != Exotic && v != Undefined && (v.Num? ==> v.n != NaN && !v.n.Infinity?)
  }

  ghost predicate AllWritable(v: Value, depth: nat) {
    forall path :: At(v, path).Some? ==> depth + |path| <= 256 && Writable(At(v, path).value)
  }

  lemma {:induction false} AcceptedIsWritable(v: Value, depth: nat, path: seq<Place>)
    requires Accepted(v, depth) && At(v, path).Some?
    ensures depth + |path| <= 256 && Writable(At(v, path).value)
    decreases |path|
  {
    if path != [] {
      match path[0]
      case Item(i) => AcceptedIsWritable(v.items[i], depth + 1, path[1..]);
      case Property(key) => AcceptedIsWritable(v.props[key], depth + 1, path[1..]);
    }
  }

  lemma ChildWritable(v: Value, depth: nat, place: Place, child: Value)
    requires AllWritable(v, depth) && At(v, [place]) == Some(child)
    ensures AllWritable(child, depth + 1)
  {
    assert [place][1..] == [];
    forall path | At(child, path).Some?
      ensures depth + 1 + |path| <= 256 && Writable(At(child, path).value)
    {
      assert ([place] + path)[1..] == path;
      assert At(v, [place] + path) == At(child, path);
    }
  }

  lemma {:induction false} WritableIsAccepted(v: Value, depth: nat)
    requires AllWritable(v, depth)
    ensures Accepted(v, depth)
  {
    assert At(v, []) == Some(v) && Writable(v);
    match v
    case Arr(items) =>
      forall i | 0 <= i < |items|
        ensures Accepted(items[i], depth + 1)
      {
        ItemAt(v, i);
        ChildWritable(v, depth, Item(i), items[i]);
        WritableIsAccepted(items[i], depth + 1);
      }
    case Obj(props) =>
      forall k | k in props && props[k] != Undefined
        ensures Accepted(props[k], depth + 1)
      {
        PropertyAt(v, k);
        ChildWritable(v, depth, Property(k), props[k]);
        WritableIsAccepted(props[k], depth + 1);
      }
    case _ =>
  }

  lemma ItemAt(v: Value, i: nat)
    requires v.Arr? && i < |v.items|
    ensures At(v, [Item(i)]) == Some(v.items[i])
  {
    assert [Item(i)][1..] == [];
  }

  lemma PropertyAt(v: Value, key: JsString)
    requires v.Obj? && key in v.props && v.props[key] != Undefined
    ensures At(v, [Property(key)]) == Some(v.props[key])
  {
    assert [Property(key)][1..] == [];
  }

  /** A value has a canonical text exactly when everything in it, at any depth up to 256, is
      something JSON can say: nothing is refused without need, and nothing slips through. */
  lemma CanonicalIff(v: Value)
    ensures Canonical(v).Some? <==> AllWritable(v, 0)
  {
    hide Text, Accepted;
    if Accepted(v, 0) {
      forall path | At(v, path).Some?
        ensures |path| <= 256 && Writable(At(v, path).value)
      {
        AcceptedIsWritable(v, 0, path);
      }
    }
    if AllWritable(v, 0) {
      WritableIsAccepted(v, 0);
    }
  }

  // ---------- Canonical text determines the value ----------

  /** The value up to what the text forgets: undefined properties and the sign of zero. */
  function Norm(v: Value): Value {
    match v
    case Num(n) => if n.Zero? then Num(Zero(false)) else v
    case Arr(items) => Arr(seq(|items|, i requires 0 <= i < |items| => Norm(items[i])))
    case Obj(props) => Obj(map k | k in props && props[k] != Undefined :: Norm(props[k]))
    case Null | Undefined | Bool(_) | Str(_) | Exotic => v
  }

  /** Nothing follows, or a separator does. */
  predicate Delimited(x: JsString) {
    x == [] || x[0] == COMMA || x[0] == CLOSE_BRACKET || x[0] == CLOSE_BRACE
  }

  /** How the text of each kind of value starts. */
  predicate Opens(v: Value, u: CodeUnit) {
    match v
    case Null => u == 0x6E
    case Bool(b) => u == if b then 0x74 else 0x66
    case Num(_) => IsDigit(u) || u == MINUS
    case Str(_) => u == QUOTE
    case Arr(_) => u == OPEN_BRACKET
    case Obj(_) => u == OPEN_BRACE
    case Undefined | Exotic => false
  }

  lemma TextOpens(v: Value, depth: nat)
    requires Accepted(v, depth)
    ensures Text(v) != [] && Opens(v, Text(v)[0])
  {
    hide NumberText, Joined, Entry, KeysOf;
    if v.Num? {
      NumberTextUnits(v.n);
    }
  }

  /** Two values with the same text before delimited rests agree, and so do the rests. */
  predicate Agree(a: Value, x: JsString, b: Value, y: JsString) {
    Text(a) + x == Text(b) + y && Delimited(x) && Delimited(y) ==> Norm(a) == Norm(b) && x == y
  }

  lemma SameKind(a: Value, b: Value, u: CodeUnit)
    requires Opens(a, u) && Opens(b, u)
    ensures (a.Null? <==> b.Null?) && (a.Bool? <==> b.Bool?) && (a.Num? <==> b.Num?) && (a.Str? <==> b.Str?)
    ensures (a.Arr? <==> b.Arr?) && (a.Obj? <==> b.Obj?) && (a.Bool? ==> a == b)
    ensures u != CLOSE_BRACKET && u != CLOSE_BRACE
  {
  }

  lemma ScalarsAgree(a: Value, x: JsString, b: Value, y: JsString, depth: nat)
    requires Accepted(a, depth) && Accepted(b, depth) && !a.Arr? && !a.Obj?
    requires a.Num? <==> b.Num?
    requires a.Str? <==> b.Str?
    requires !a.Num? && !a.Str? ==> a == b
    ensures Agree(a, x, b, y)
  {
    hide NumberText, Quoted;
    if Text(a) + x == Text(b) + y && Delimited(x) && Delimited(y) {
      if a.Num? {
        NumberSplits(a.n, x, b.n, y);
      } else if a.Str? {
        QuotedSplits(a.s, x, b.s, y);
      } else {
        assert x == (Text(a) + x)[|Text(a)|..];
        assert y == (Text(b) + y)[|Text(b)|..];
      }
    }
  }

  // The rest of a list, from its i-th part on.

  function Rest(parts: seq<JsString>, i: nat, close: CodeUnit, x: JsString): JsString
    requires i <= |parts|
  {
    Tail(parts[i..]) + [close] + x
  }

  lemma RestUnfolds(parts: seq<JsString>, i: nat, close: CodeUnit, x: JsString)
    requires i <= |parts|
    ensures i < |parts| ==> Rest(parts, i, close, x) == [COMMA] + (parts[i] + Rest(parts, i + 1, close, x))
    ensures i == |parts| ==> Rest(parts, i, close, x) == [close] + x
  {
    if i < |parts| {
      var tail := Tail(parts[i + 1..]);
      assert parts[i..][1..] == parts[i + 1..];
      assert Tail(parts[i..]) == [COMMA] + parts[i] + tail;
      assert [COMMA] + parts[i] + tail + [close] + x == [COMMA] + (parts[i] + (tail + [close] + x));
    }
  }

  lemma RestIsDelimited(parts: seq<JsString>, i: nat, close: CodeUnit, x: JsString)
    requires i <= |parts| && (close == CLOSE_BRACKET || close == CLOSE_BRACE)
    ensures Delimited(Rest(parts, i, close, x))
  {
    hide Rest;
    RestUnfolds(parts, i, close, x);
  }

  lemma JoinedIsRest(parts: seq<JsString>, close: CodeUnit, x: JsString)
    ensures parts == [] ==> Joined(parts) + [close] + x == [close] + x
    ensures parts != [] ==> [COMMA] + (Joined(parts) + [close] + x) == Rest(parts, 0, close, x)
    ensures parts != [] && parts[0] != [] ==> (Joined(parts) + [close] + x)[0] == parts[0][0]
  {
    if parts != [] {
      assert parts[0..] == parts;
      assert Joined(parts) == parts[0] + Tail(parts[1..]);
      assert Tail(parts) == [COMMA] + parts[0] + Tail(parts[1..]);
    }
  }

  /** Peeling one common unit off both sides. */
  lemma Peel(u: CodeUnit, s: JsString, t: JsString)
    requires [u] + s == [u] + t
    ensures s == t
  {
    assert s == ([u] + s)[1..] && t == ([u] + t)[1..];
  }

  predicate SameItems(a: seq<Value>, b: seq<Value>, i: nat) {
    |a| == |b| && forall j :: i <= j < |a| ==> Norm(a[j]) == Norm(b[j])
  }

  lemma {:induction false} TextDetermines(a: Value, x: JsString, b: Value, y: JsString, depth: nat)
    requires Accepted(a, depth) && Accepted(b, depth)
    ensures Agree(a, x, b, y)
    decreases a, 1, 0
  {
    hide Text, Norm, Opens, Delimited, Accepted;
    if Text(a) + x == Text(b) + y && Delimited(x) && Delimited(y) {
      TextOpens(a, depth);
      TextOpens(b, depth);
      assert (Text(a) + x)[0] == Text(a)[0] && (Text(b) + y)[0] == Text(b)[0];
      SameKind(a, b, Text(a)[0]);
      if a.Arr? {
        ArraysAgree(a, x, b, y, depth);
      } else if a.Obj? {
        ObjectsAgree(a, x, b, y, depth);
      } else {
        NotAccepted(a, depth);
        NotAccepted(b, depth);
        ScalarsAgree(a, x, b, y, depth);
      }
    }
  }

  lemma NotAccepted(v: Value, depth: nat)
    requires Accepted(v, depth)
    ensures !v.Undefined? && !v.Exotic?
  {
  }

  lemma ItemAccepted(v: Value, depth: nat, i: nat)
    requires v.Arr? && Accepted(v, depth) && i < |v.items|
    ensures Accepted(v.items[i], depth + 1)
  {
  }

  lemma {:induction false} ArraysAgree(a: Value, x: JsString, b: Value, y: JsString, depth: nat)
    requires a.Arr? && b.Arr? && Accepted(a, depth) && Accepted(b, depth)
    ensures Agree(a, x, b, y)
    decreases a, 0, |if a.Arr? then a.items else []| + 1
  {
    hide Text, Norm, Accepted, Joined, Rest, ItemTexts;
    if Text(a) + x == Text(b) + y {
      var pa, pb := ItemTexts(a.items), ItemTexts(b.items);
      ArrayRest(a, x, depth);
      ArrayRest(b, y, depth);
      assert Joined(pa) + [CLOSE_BRACKET] + x == Joined(pb) + [CLOSE_BRACKET] + y by {
        Peel(OPEN_BRACKET, Joined(pa) + [CLOSE_BRACKET] + x, Joined(pb) + [CLOSE_BRACKET] + y);
      }
      if pa == [] {
        Peel(CLOSE_BRACKET, x, y);
      } else {
        ItemTailsAgree(a, x, b, y, 0, depth);
      }
      NormOfItems(a, b);
    }
  }

  lemma ArrayRest(a: Value, x: JsString, depth: nat)
    requires a.Arr? && Accepted(a, depth)
    ensures var parts := ItemTexts(a.items); var inner := Joined(parts) + [CLOSE_BRACKET] + x;
      && |parts| == |a.items|
      && Text(a) + x == [OPEN_BRACKET] + inner
      && inner != []
      && (parts == [] ==> inner == [CLOSE_BRACKET] + x)
      && (parts != [] ==> [COMMA] + inner == Rest(parts, 0, CLOSE_BRACKET, x) && inner[0] != CLOSE_BRACKET)
  {
    hide Joined, Rest, Text;
    var parts := ItemTexts(a.items);
    TextOfArr(a.items);
    JoinedIsRest(parts, CLOSE_BRACKET, x);
    if parts != [] {
      TextOpens(a.items[0], depth + 1);
      SameKind(a.items[0], a.items[0], Text(a.items[0])[0]);
    }
  }

  lemma NormOfItems(a: Value, b: Value)
    requires a.Arr? && b.Arr?
    ensures SameItems(a.items, b.items, 0) ==> Norm(a) == Norm(b)
  {
  }

  lemma {:induction false} ItemTailsAgree(a: Value, x: JsString, b: Value, y: JsString, i: nat, depth: nat)
    requires a.Arr? && b.Arr? && Accepted(a, depth) && Accepted(b, depth) && i <= |a.items| && i <= |b.items|
    requires Rest(ItemTexts(a.items), i, CLOSE_BRACKET, x) == Rest(ItemTexts(b.items), i, CLOSE_BRACKET, y)
    ensures SameItems(a.items, b.items, i) && x == y
    decreases a, 0, if a.Arr? then |a.items| - i else 0
  {
    hide Text, Norm, Accepted, Rest, Delimited;
    var pa, pb := ItemTexts(a.items), ItemTexts(b.items);
    RestUnfolds(pa, i, CLOSE_BRACKET, x);
    RestUnfolds(pb, i, CLOSE_BRACKET, y);
    if i == |pa| || i == |pb| {
      assert Rest(pa, i, CLOSE_BRACKET, x)[0] == Rest(pb, i, CLOSE_BRACKET, y)[0];
      Peel(CLOSE_BRACKET, x, y);
    } else {
      var x', y' := Rest(pa, i + 1, CLOSE_BRACKET, x), Rest(pb, i + 1, CLOSE_BRACKET, y);
      Peel(COMMA, pa[i] + x', pb[i] + y');
      RestIsDelimited(pa, i + 1, CLOSE_BRACKET, x);
      RestIsDelimited(pb, i + 1, CLOSE_BRACKET, y);
      ItemAccepted(a, depth, i);
      ItemAccepted(b, depth, i);
      TextDetermines(a.items[i], x', b.items[i], y', depth + 1);
      ItemTailsAgree(a, x, b, y, i + 1, depth);
    }
  }

  lemma {:induction false} ObjectsAgree(a: Value, x: JsString, b: Value, y: JsString, depth: nat)
    requires a.Obj? && b.Obj? && Accepted(a, depth) && Accepted(b, depth)
    ensures Agree(a, x, b, y)
    decreases a, 0, |if a.Obj? then KeysOf(a.props) else []| + 1
  {
    hide Text, Norm, Accepted, Joined, Rest, EntryTexts, KeysOf;
    if Text(a) + x == Text(b) + y {
      var ka, kb := KeysOf(a.props), KeysOf(b.props);
      var pa, pb := EntryTexts(a.props, ka), EntryTexts(b.props, kb);
      ObjectRest(a, x);
      ObjectRest(b, y);
      assert Joined(pa) + [CLOSE_BRACE] + x == Joined(pb) + [CLOSE_BRACE] + y by {
        Peel(OPEN_BRACE, Joined(pa) + [CLOSE_BRACE] + x, Joined(pb) + [CLOSE_BRACE] + y);
      }
      if pa == [] {
        Peel(CLOSE_BRACE, x, y);
      } else {
        EntryTailsAgree(a, x, b, y, 0, depth);
      }
      NormOfProps(a, b);
    }
  }

  lemma ObjectRest(a: Value, x: JsString)
    requires a.Obj?
    ensures var parts := EntryTexts(a.props, KeysOf(a.props)); var inner := Joined(parts) + [CLOSE_BRACE] + x;
      && |parts| == |KeysOf(a.props)|
      && Text(a) + x == [OPEN_BRACE] + inner
      && inner != []
      && (parts == [] ==> inner == [CLOSE_BRACE] + x)
      && (parts != [] ==> [COMMA] + inner == Rest(parts, 0, CLOSE_BRACE, x) && inner[0] != CLOSE_BRACE)
  {
    hide Joined, Rest, Text, KeysOf, Body;
    var parts := EntryTexts(a.props, KeysOf(a.props));
    TextOfObj(a.props);
    JoinedIsRest(parts, CLOSE_BRACE, x);
  }

  predicate SameProps(a: Value, b: Value, i: nat)
    requires a.Obj? && b.Obj?
  {
    var ka, kb := KeysOf(a.props), KeysOf(b.props);
    && |ka| == |kb|
    && forall j :: i <= j < |ka| ==> ka[j] in ka && kb[j] in kb && ka[j] == kb[j] && Norm(a.props[ka[j]]) == Norm(b.props[kb[j]])
  }

  lemma NormOfProps(a: Value, b: Value)
    requires a.Obj? && b.Obj?
    ensures SameProps(a, b, 0) ==> Norm(a) == Norm(b)
  {
    hide KeysOf, Norm;
    if SameProps(a, b, 0) {
      var ka, kb := KeysOf(a.props), KeysOf(b.props);
      assert ka == kb;
      forall k | k in ka
        ensures Norm(a.props[k]) == Norm(b.props[k])
      {
        var j :| 0 <= j < |ka| && ka[j] == k;
        assert Norm(a.props[ka[j]]) == Norm(b.props[kb[j]]);
      }
      assert NormProps(a.props) == NormProps(b.props);
      NormOfObj(a.props);
      NormOfObj(b.props);
    }
  }

  function NormProps(props: map<JsString, Value>): (normal: map<JsString, Value>)
    ensures forall k :: k in normal <==> k in props && props[k] != Undefined
  {
    map k | k in props && props[k] != Undefined :: Norm(props[k])
  }

  lemma NormOfObj(props: map<JsString, Value>)
    ensures Norm(Obj(props)) == Obj(NormProps(props))
  {
  }

  lemma PropAccepted(v: Value, depth: nat, k: JsString)
    requires v.Obj? && Accepted(v, depth) && k in KeysOf(v.props)
    ensures k in v.props && Accepted(v.props[k], depth + 1)
  {
    hide KeysOf;
  }

  lemma {:induction false} EntryTailsAgree(a: Value, x: JsString, b: Value, y: JsString, i: nat, depth: nat)
    requires a.Obj? && b.Obj? && Accepted(a, depth) && Accepted(b, depth)
    requires i <= |KeysOf(a.props)| && i <= |KeysOf(b.props)|
    requires Rest(EntryTexts(a.props, KeysOf(a.props)), i, CLOSE_BRACE, x) == Rest(EntryTexts(b.props, KeysOf(b.props)), i, CLOSE_BRACE, y)
    ensures SameProps(a, b, i) && x == y
    decreases a, 0, if a.Obj? then |KeysOf(a.props)| - i else 0
  {
    hide Text, Norm, Accepted, Rest, Delimited, KeysOf, Entry;
    var ka, kb := KeysOf(a.props), KeysOf(b.props);
    var pa, pb := EntryTexts(a.props, ka), EntryTexts(b.props, kb);
    RestUnfolds(pa, i, CLOSE_BRACE, x);
    RestUnfolds(pb, i, CLOSE_BRACE, y);
    if i == |pa| || i == |pb| {
      assert Rest(pa, i, CLOSE_BRACE, x)[0] == Rest(pb, i, CLOSE_BRACE, y)[0];
      Peel(CLOSE_BRACE, x, y);
    } else {
      var x', y' := Rest(pa, i + 1, CLOSE_BRACE, x), Rest(pb, i + 1, CLOSE_BRACE, y);
      Peel(COMMA, pa[i] + x', pb[i] + y');
      assert ka[i] in ka && kb[i] in kb;
      EntrySplits(ka[i], Text(a.props[ka[i]]), x', kb[i], Text(b.props[kb[i]]), y');
      RestIsDelimited(pa, i + 1, CLOSE_BRACE, x);
      RestIsDelimited(pb, i + 1, CLOSE_BRACE, y);
      PropAccepted(a, depth, ka[i]);
      PropAccepted(b, depth, kb[i]);
      TextDetermines(a.props[ka[i]], x', b.props[kb[i]], y', depth + 1);
      EntryTailsAgree(a, x, b, y, i + 1, depth);
    }
  }

  lemma EntrySplits(k1: JsString, t1: JsString, x: JsString, k2: JsString, t2: JsString, y: JsString)
    requires Entry(k1, t1) + x == Entry(k2, t2) + y
    ensures k1 == k2 && t1 + x == t2 + y
  {
    hide Quoted;
    assert Entry(k1, t1) + x == Quoted(k1) + ([COLON] + (t1 + x));
    assert Entry(k2, t2) + y == Quoted(k2) + ([COLON] + (t2 + y));
    QuotedSplits(k1, [COLON] + (t1 + x), k2, [COLON] + (t2 + y));
    Peel(COLON, t1 + x, t2 + y);
  }

  // ---------- The text forgets nothing else ----------

  lemma AscendingRest(s: seq<JsString>)
    requires Ascending(s) && s != []
    ensures Ascending(s[1..]) && IsLeast(s[0], set k | k in s)
    ensures (set k | k in s[1..]) == (set k | k in s) - {s[0]}
  {
    LeqTotal(s[0], s[0]);
    forall k | k in s
      ensures Leq(s[0], k)
    {
      var i :| 0 <= i < |s| && s[i] == k;
    }
    assert s == [s[0]] + s[1..];
    forall k | k in s[1..]
      ensures k != s[0]
    {
      var i :| 0 <= i < |s[1..]| && s[1..][i] == k;
      assert s[i + 1] == k;
    }
  }

  /** A set has only one ascending list. */
  lemma {:induction false} AscendingIsUnique(s: seq<JsString>, t: seq<JsString>)
    requires Ascending(s) && Ascending(t) && forall k :: k in s <==> k in t
    ensures s == t
  {
    hide Ascending;
    SameEmptiness(s, t);
    if s != [] {
      AscendingRest(s);
      AscendingRest(t);
      var keys, ss, ts := set k | k in s, set k | k in s[1..], set k | k in t[1..];
      assert keys == set k | k in t;
      LeastIsUnique(keys);
      assert IsLeast(s[0], keys) && IsLeast(t[0], keys);
      assert ss == ts;
      assert forall k :: k in s[1..] <==> k in ss;
      assert forall k :: k in t[1..] <==> k in ts;
      AscendingIsUnique(s[1..], t[1..]);
      assert s == [s[0]] + s[1..] && t == [t[0]] + t[1..];
    }
  }

  lemma SameEmptiness(s: seq<JsString>, t: seq<JsString>)
    requires forall k :: k in s <==> k in t
    ensures s == [] <==> t == []
  {
    assert s != [] ==> s[0] in s;
    assert t != [] ==> t[0] in t;
  }

  lemma {:induction false} KeptAscends(props: map<JsString, Value>, keys: seq<JsString>)
    requires Ascending(keys) && forall k :: k in keys ==> k in props
    ensures Ascending(Kept(props, keys))
  {
    hide Leq;
    if keys != [] {
      var n := |keys| - 1;
      KeptAscends(props, keys[..n]);
      var before := Kept(props, keys[..n]);
      forall i | 0 <= i < |before|
        ensures Leq(before[i], keys[n]) && before[i] != keys[n]
      {
        assert before[i] in keys[..n];
        var j :| 0 <= j < n && keys[j] == before[i];
      }
    }
  }

  lemma KeysAscend(props: map<JsString, Value>)
    ensures Ascending(KeysOf(props))
  {
    hide Ascending;
    SortedAscends(props.Keys);
    KeptAscends(props, Sorted(props.Keys));
  }

  lemma KeysOfNorm(props: map<JsString, Value>)
    ensures KeysOf(NormProps(props)) == KeysOf(props)
  {
    hide Ascending, KeysOf;
    KeysAscend(props);
    KeysAscend(NormProps(props));
    forall k | k in NormProps(props)
      ensures NormProps(props)[k] != Undefined
    {
    }
    AscendingIsUnique(KeysOf(NormProps(props)), KeysOf(props));
  }

  lemma {:induction false} TextOfNorm(v: Value, depth: nat)
    requires Accepted(v, depth)
    ensures Text(Norm(v)) == Text(v)
    decreases v
  {
    match v
    case Arr(items) =>
      hide Text, Joined, Accepted;
      forall i | 0 <= i < |items|
        ensures Text(Norm(items[i])) == Text(items[i])
      {
        ItemAccepted(v, depth, i);
        TextOfNorm(items[i], depth + 1);
      }
      TextOfArr(items);
      TextOfArr(Norm(v).items);
      assert ItemTexts(Norm(v).items) == ItemTexts(items);
    case Obj(props) =>
      hide Text, Joined, Accepted, Entry, KeysOf;
      var keys := KeysOf(props);
      NormOfObj(props);
      KeysOfNorm(props);
      forall i | 0 <= i < |keys|
        ensures Text(NormProps(props)[keys[i]]) == Text(props[keys[i]])
      {
        assert keys[i] in keys;
        PropAccepted(v, depth, keys[i]);
        TextOfNorm(props[keys[i]], depth + 1);
      }
      TextOfObj(props);
      TextOfObj(NormProps(props));
      assert EntryTexts(NormProps(props), keys) == EntryTexts(props, keys);
    case _ =>
  }

  /** Two accepted values have the same canonical text exactly when they are the same value,
      up to undefined properties and the sign of zero. */
  lemma CanonicalIsInjective(a: Value, b: Value)
    requires Accepted(a, 0) && Accepted(b, 0)
    ensures Canonical(a) == Canonical(b) <==> Norm(a) == Norm(b)
  {
    hide Text, Norm, Accepted;
    if Text(a) == Text(b) {
      assert Text(a) + [] == Text(a) && Text(b) + [] == Text(b);
      TextDetermines(a, [], b, [], 0);
    }
    if Norm(a) == Norm(b) {
      TextOfNorm(a, 0);
      TextOfNorm(b, 0);
    }
  }

  // ---------- The serializer's loops ----------

  lemma {:induction false} TailSnoc(parts: seq<JsString>, p: JsString)
    ensures Tail(parts + [p]) == Tail(parts) + [COMMA] + p
  {
    if parts == [] {
      assert parts + [p] == [p];
      assert Tail([p]) == [COMMA] + p + Tail([]);
    } else {
      assert (parts + [p])[1..] == parts[1..] + [p];
      TailSnoc(parts[1..], p);
    }
  }

  /** `parts.join(",")`. */
  method Join(parts: seq<JsString>) returns (text: JsString)
    ensures text == Joined(parts)
  {
    if parts == [] {
      return [];
    }
    text := parts[0];
    var i := 1;
    while i < |parts|
      invariant 1 <= i <= |parts|
      invariant text == parts[0] + Tail(parts[1..i])
    {
      assert parts[1..i + 1] == parts[1..i] + [parts[i]];
      TailSnoc(parts[1..i], parts[i]);
      text := text + ([COMMA] + parts[i]);
      i := i + 1;
    }
    assert parts[1..i] == parts[1..];
  }

  method Serialize(v: Value, depth: nat) returns (text: Option<JsString>)
    requires depth <= MAX_DEPTH + 1
    ensures text == if Accepted(v, depth) then Some(Text(v)) else None
    decreases v, 1
  {
    hide Joined, Entry, KeysOf, NumberText, Quoted;
    if depth > MAX_DEPTH {
      return None;
    }
    match v
    case Null | Bool(_) | Str(_) =>
      text := Some(Text(v));
    case Num(n) =>
      text := if IsFinite(n) then Some(NumberText(n)) else None;
    case Undefined | Exotic =>
      text := None;
    case Arr(items) =>
      text := SerializeArray(v, depth);
    case Obj(props) =>
      text := SerializeObject(v, depth);
  }

  method SerializeArray(v: Value, depth: nat) returns (text: Option<JsString>)
    requires v.Arr? && depth <= MAX_DEPTH
    ensures text == if Accepted(v, depth) then Some(Text(v)) else None
    decreases v, 0
  {
    hide Text, Accepted, Joined;
    var items, parts := v.items, [];
    ArrayAccepted(v, depth);
    var i := 0;
    while i < |items|
      invariant 0 <= i <= |items|
      invariant forall j :: 0 <= j < i ==> Accepted(items[j], depth + 1)
      invariant parts == ItemTexts(items)[..i]
    {
      var part := Serialize(items[i], depth + 1);
      if part.None? {
        return None;
      }
      parts := parts + [part.value];
      i := i + 1;
    }
    var inner := Join(parts);
    TextOfArr(items);
    assert parts == ItemTexts(items);
    text := Some([OPEN_BRACKET] + inner + [CLOSE_BRACKET]);
  }

  lemma ArrayAccepted(v: Value, depth: nat)
    requires v.Arr? && depth <= MAX_DEPTH
    ensures Accepted(v, depth) <==> forall i :: 0 <= i < |v.items| ==> Accepted(v.items[i], depth + 1)
  {
  }

  lemma ObjectAccepted(v: Value, depth: nat)
    requires v.Obj? && depth <= MAX_DEPTH
    ensures Accepted(v, depth) <==> forall k :: k in KeysOf(v.props) ==> k in v.props && Accepted(v.props[k], depth + 1)
  {
    hide KeysOf;
  }

  lemma KeptPrefix(props: map<JsString, Value>, keys: seq<JsString>, i: nat)
    requires i < |keys| && forall k :: k in keys ==> k in props
    ensures Kept(props, keys[..i + 1]) == if props[keys[i]] == Undefined then Kept(props, keys[..i]) else Kept(props, keys[..i]) + [keys[i]]
  {
    assert keys[..i + 1][..i] == keys[..i];
  }

  /** The parts of the first i keys are done, and were accepted. */
  predicate SoFar(props: map<JsString, Value>, keys: seq<JsString>, i: nat, parts: seq<JsString>, depth: nat) {
    && i <= |keys| && (forall k :: k in keys ==> k in props)
    && parts == EntryTexts(props, Kept(props, keys[..i]))
    && forall k :: k in Kept(props, keys[..i]) ==> Accepted(props[k], depth + 1)
  }

  lemma SoFarStarts(props: map<JsString, Value>, keys: seq<JsString>, depth: nat)
    requires forall k :: k in keys ==> k in props
    ensures SoFar(props, keys, 0, [], depth)
  {
  }

  lemma SoFarSkips(props: map<JsString, Value>, keys: seq<JsString>, i: nat, parts: seq<JsString>, depth: nat)
    requires SoFar(props, keys, i, parts, depth) && i < |keys| && props[keys[i]] == Undefined
    ensures SoFar(props, keys, i + 1, parts, depth)
  {
    hide Accepted, Entry, Text, Kept;
    KeptPrefix(props, keys, i);
  }

  lemma SoFarGrows(props: map<JsString, Value>, keys: seq<JsString>, i: nat, parts: seq<JsString>, depth: nat)
    requires SoFar(props, keys, i, parts, depth) && i < |keys| && props[keys[i]] != Undefined
    requires Accepted(props[keys[i]], depth + 1)
    ensures SoFar(props, keys, i + 1, parts + [Entry(keys[i], Text(props[keys[i]]))], depth)
  {
    hide Accepted, Entry, Text, Kept;
    KeptPrefix(props, keys, i);
  }

  lemma SoFarEnds(v: Value, parts: seq<JsString>, depth: nat)
    requires v.Obj? && depth <= MAX_DEPTH && SoFar(v.props, Sorted(v.props.Keys), |Sorted(v.props.Keys)|, parts, depth)
    ensures Accepted(v, depth) && Text(v) == [OPEN_BRACE] + Joined(parts) + [CLOSE_BRACE]
  {
    hide Accepted, Entry, Text, Kept, Sorted, Joined;
    var keys := Sorted(v.props.Keys);
    assert keys[..|keys|] == keys;
    ObjectAccepted(v, depth);
    TextOfObj(v.props);
  }

  method SerializeObject(v: Value, depth: nat) returns (text: Option<JsString>)
    requires v.Obj? && depth <= MAX_DEPTH
    ensures text == if Accepted(v, depth) then Some(Text(v)) else None
    decreases v, 0
  {
    hide *;
    var props, keys, parts := v.props, Sorted(v.props.Keys), [];
    SoFarStarts(props, keys, depth);
    var i := 0;
    while i < |keys|
      invariant 0 <= i <= |keys| && SoFar(props, keys, i, parts, depth)
    {
      var k := keys[i];
      i := i + 1;
      if props[k] == Undefined {
        SoFarSkips(props, keys, i - 1, parts, depth);
        continue;
      }
      var part := Serialize(props[k], depth + 1);
      if part.None? {
        ObjectAccepted(v, depth);
        return None;
      }
      SoFarGrows(props, keys, i - 1, parts, depth);
      parts := parts + [Entry(k, part.value)];
    }
    SoFarEnds(v, parts, depth);
    var inner := Join(parts);
    text := Some([OPEN_BRACE] + inner + [CLOSE_BRACE]);
  }

  method CanonicalJson(v: Value) returns (text: Option<JsString>)
    ensures text == Canonical(v)
  {
    text := Serialize(v, 0);
  }

  // ---------- The text is faithful in UTF-8 ----------

  lemma {:induction false} TailIsWellFormed(parts: seq<JsString>)
    requires forall i :: 0 <= i < |parts| ==> JsonText.WellFormed(parts[i])
    ensures JsonText.WellFormed(Tail(parts))
  {
    hide JsonText.WellFormed;
    if parts == [] {
      PlainIsWellFormed([]);
    } else {
      TailIsWellFormed(parts[1..]);
      PlainIsWellFormed([COMMA]);
      WellFormedConcat([COMMA], parts[0]);
      WellFormedConcat([COMMA] + parts[0], Tail(parts[1..]));
    }
  }

  lemma WrappedIsWellFormed(open: CodeUnit, parts: seq<JsString>, close: CodeUnit)
    requires !Surrogate(open) && !Surrogate(close)
    requires forall i :: 0 <= i < |parts| ==> JsonText.WellFormed(parts[i])
    ensures JsonText.WellFormed([open] + Joined(parts) + [close])
  {
    hide JsonText.WellFormed, Tail;
    if parts != [] {
      TailIsWellFormed(parts[1..]);
      WellFormedConcat(parts[0], Tail(parts[1..]));
    } else {
      PlainIsWellFormed([]);
    }
    PlainIsWellFormed([open]);
    PlainIsWellFormed([close]);
    WellFormedConcat([open], Joined(parts));
    WellFormedConcat([open] + Joined(parts), [close]);
  }

  lemma EntryIsWellFormed(key: JsString, text: JsString)
    requires JsonText.WellFormed(text)
    ensures JsonText.WellFormed(Entry(key, text))
  {
    hide JsonText.WellFormed, Quoted;
    QuotedIsWellFormed(key);
    PlainIsWellFormed([COLON]);
    WellFormedConcat(Quoted(key), [COLON]);
    WellFormedConcat(Quoted(key) + [COLON], text);
  }

  lemma NumberIsWellFormed(n: Double)
    requires IsFinite(n)
    ensures JsonText.WellFormed(NumberText(n))
  {
    hide NumberText, JsonText.WellFormed;
    NumberTextUnits(n);
    PlainIsWellFormed(NumberText(n));
  }

  /** Whatever strings the value holds, its canonical text has no lone surrogate, so hashing
      its UTF-8 bytes loses nothing. */
  lemma {:induction false} TextIsWellFormed(v: Value, depth: nat)
    requires Accepted(v, depth)
    ensures JsonText.WellFormed(Text(v))
    decreases v
  {
    hide JsonText.WellFormed, Joined, Entry, KeysOf, NumberText, Quoted;
    match v
    case Null =>
      PlainIsWellFormed(Text(v));
    case Bool(_) =>
      PlainIsWellFormed(Text(v));
    case Num(n) =>
      NumberIsWellFormed(n);
    case Str(s) =>
      QuotedIsWellFormed(s);
    case Arr(items) =>
      forall i | 0 <= i < |items|
        ensures JsonText.WellFormed(Text(items[i]))
      {
        TextIsWellFormed(items[i], depth + 1);
      }
      TextOfArr(items);
      WrappedIsWellFormed(OPEN_BRACKET, ItemTexts(items), CLOSE_BRACKET);
    case Obj(props) =>
      var keys := KeysOf(props);
      forall i | 0 <= i < |keys|
        ensures JsonText.WellFormed(EntryTexts(props, keys)[i])
      {
        assert keys[i] in keys;
        PropAccepted(v, depth, keys[i]);
        TextIsWellFormed(props[keys[i]], depth + 1);
        EntryIsWellFormed(keys[i], Text(props[keys[i]]));
      }
      TextOfObj(props);
      WrappedIsWellFormed(OPEN_BRACE, EntryTexts(props, keys), CLOSE_BRACE);
  }
}

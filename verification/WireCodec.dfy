/** The signer's wire codec: values that JSON would mangle are tagged, escaped or refused. */
module WireCodec {
  import opened Prelude
  import opened JsonText
  import opened JsonNumber

  /** What a caller may hand over. `Hole` is an absent array index; `Exotic` is undefined, a
      function, a symbol or an object that is not plain. */
  datatype Value =
    | Null
    | Bool(b: bool)
    | Str(s: JsString)
    | Num(n: Double)
    | BigInt(i: int)
    | Arr(items: seq<Value>)
    | Obj(props: map<JsString, Value>)
    | Hole
    | Exotic

  /** What JSON parsing can produce. */
  datatype Wire =
    | WNull
    | WBool(b: bool)
    | WStr(s: JsString)
    | WNum(n: Double)
    | WArr(items: seq<Wire>)
    | WObj(props: map<JsString, Wire>)

  /** "$vadunoBigint" and "$vadunoEscape". */
  const BIGINT_TAG: JsString := [0x24, 0x76, 0x61, 0x64, 0x75, 0x6E, 0x6F, 0x42, 0x69, 0x67, 0x69, 0x6E, 0x74]
  const ESCAPE_TAG: JsString := [0x24, 0x76, 0x61, 0x64, 0x75, 0x6E, 0x6F, 0x45, 0x73, 0x63, 0x61, 0x70, 0x65]

  /** Finite, and not negative zero. */
  predicate Crosses(n: JsNumber) {
    n == Zero(false) || n.ShortDecimal?
  }

  // ---------- Encoding ----------

  predicate Encodable(v: Value) {
    match v
    case Null | Bool(_) | Str(_) | BigInt(_) => true
    case Num(n) => Crosses(n)
    case Arr(items) => forall i :: 0 <= i < |items| ==> Encodable(items[i])
    case Obj(props) => forall k :: k in props ==> Encodable(props[k])
    case Hole | Exotic => false
  }

  function BigIntText(i: int): JsString {
    if i < 0 then [MINUS] + DecimalUnits(-i) else DecimalUnits(i)
  }

  predicate LooksTagged(props: map<JsString, Value>) {
    BIGINT_TAG in props || ESCAPE_TAG in props
  }

  /** The wire form of an encodable value (for the others, nothing that is ever used). */
  function Encode(v: Value): Wire {
    match v
    case Null => WNull
    case Bool(b) => WBool(b)
    case Str(s) => WStr(s)
    case Num(n) => WNum(n)
    case BigInt(i) => WObj(map[BIGINT_TAG := WStr(BigIntText(i))])
    case Arr(items) => WArr(seq(|items|, i requires 0 <= i < |items| => Encode(items[i])))
    case Obj(props) =>
      var out := WObj(map k | k in props :: Encode(props[k]));
      if LooksTagged(props) then WObj(map[ESCAPE_TAG := out]) else out
    case Hole | Exotic => WNull
  }

  // ---------- Decoding ----------

  /** `/^-?\\d+$/`. */
  predicate BigIntSyntax(s: JsString) {
    var digits := if s != [] && s[0] == MINUS then s[1..] else s;
    digits != [] && AllDigits(digits)
  }

  function BigIntValue(s: JsString): int {
    if s != [] && s[0] == MINUS then 0 - DecimalValue(s[1..]) as int else DecimalValue(s) as int
  }

  predicate Tagged(props: map<JsString, Wire>, tag: JsString) {
    props.Keys == {tag}
  }

  predicate Decodable(w: Wire) {
    match w
    case WNull | WBool(_) | WStr(_) => true
    case WNum(n) => Crosses(n)
    case WArr(items) => forall i :: 0 <= i < |items| ==> Decodable(items[i])
    case WObj(props) =>
      if Tagged(props, BIGINT_TAG) then props[BIGINT_TAG].WStr? && BigIntSyntax(props[BIGINT_TAG].s)
      else if Tagged(props, ESCAPE_TAG) then
        props[ESCAPE_TAG].WObj? && forall k :: k in props[ESCAPE_TAG].props ==> Decodable(props[ESCAPE_TAG].props[k])
      else forall k :: k in props ==> Decodable(props[k])
  }

  /** The value a decodable wire form stands for. */
  function Decode(w: Wire): Value {
    match w
    case WNull => Null
    case WBool(b) => Bool(b)
    case WStr(s) => Str(s)
    case WNum(n) => Num(n)
    case WArr(items) => Arr(seq(|items|, i requires 0 <= i < |items| => Decode(items[i])))
    case WObj(props) =>
      if Tagged(props, BIGINT_TAG) then
        if props[BIGINT_TAG].WStr? then BigInt(BigIntValue(props[BIGINT_TAG].s)) else Exotic
      else if Tagged(props, ESCAPE_TAG) then
        if props[ESCAPE_TAG].WObj? then
          var inner := props[ESCAPE_TAG].props;
          Obj(map k | k in inner :: Decode(inner[k]))
        else Exotic
      else Obj(map k | k in props :: Decode(props[k]))
  }

  // ---------- What crosses ----------

  datatype Place = Item(i: nat) | Property(key: JsString)

  /** What is found in a value at the end of a path. */
  function At(v: Value, path: seq<Place>): Option<Value>
    decreases |path|
  {
    if path == [] then Some(v)
    else match path[0]
      case Item(i) => if v.Arr? && i < |v.items| then At(v.items[i], path[1..]) else None
      case Property(key) => if v.Obj? && key in v.props then At(v.props[key], path[1..]) else None
  }

  /** Something JSON would not mangle: no hole, no exotic value, no NaN, infinity or negative zero. */
  predicate Faithful(v: Value) {
    v != Hole && v != Exotic && (v.Num? ==> v.n != NaN && !v.n.Infinity? && v.n != Zero(true))
  }

  ghost predicate AllFaithful(v: Value) {
    forall path :: At(v, path).Some? ==> Faithful(At(v, path).value)
  }

  lemma {:induction false} EncodableIsFaithful(v: Value, path: seq<Place>)
    requires Encodable(v) && At(v, path).Some?
    ensures Faithful(At(v, path).value)
    decreases |path|
  {
    if path != [] {
      match path[0]
      case Item(i) => EncodableIsFaithful(v.items[i], path[1..]);
      case Property(key) => EncodableIsFaithful(v.props[key], path[1..]);
    }
  }

  lemma ChildFaithful(v: Value, place: Place, child: Value)
    requires AllFaithful(v) && At(v, [place]) == Some(child)
    ensures AllFaithful(child)
  {
    assert [place][1..] == [];
    forall path | At(child, path).Some?
      ensures Faithful(At(child, path).value)
    {
      assert ([place] + path)[1..] == path;
      assert At(v, [place] + path) == At(child, path);
    }
  }

  lemma {:induction false} FaithfulIsEncodable(v: Value)
    requires AllFaithful(v)
    ensures Encodable(v)
  {
    assert At(v, []) == Some(v) && Faithful(v);
    match v
    case Arr(items) =>
      forall i | 0 <= i < |items|
        ensures Encodable(items[i])
      {
        assert [Item(i)][1..] == [] && At(v, [Item(i)]) == Some(items[i]);
        ChildFaithful(v, Item(i), items[i]);
        FaithfulIsEncodable(items[i]);
      }
    case Obj(props) =>
      forall k | k in props
        ensures Encodable(props[k])
      {
        assert [Property(k)][1..] == [] && At(v, [Property(k)]) == Some(props[k]);
        ChildFaithful(v, Property(k), props[k]);
        FaithfulIsEncodable(props[k]);
      }
    case _ =>
  }

  /** A value crosses exactly when everything in it, at any depth, survives JSON. */
  lemma EncodableIff(v: Value)
    ensures Encodable(v) <==> AllFaithful(v)
  {
    hide Encodable;
    if Encodable(v) {
      forall path | At(v, path).Some?
        ensures Faithful(At(v, path).value)
      {
        EncodableIsFaithful(v, path);
      }
    }
    if AllFaithful(v) {
      FaithfulIsEncodable(v);
    }
  }

  /** The accepted domains mirror each other: whatever decodes is a value that would encode. */
  lemma {:induction false} DecodedIsEncodable(w: Wire)
    requires Decodable(w)
    ensures Encodable(Decode(w))
  {
    match w
    case WArr(items) =>
      forall i | 0 <= i < |items|
        ensures Encodable(Decode(items[i]))
      {
        DecodedIsEncodable(items[i]);
      }
    case WObj(props) =>
      if Tagged(props, ESCAPE_TAG) && !Tagged(props, BIGINT_TAG) {
        var inner := props[ESCAPE_TAG].props;
        forall k | k in inner
          ensures Encodable(Decode(inner[k]))
        {
          DecodedIsEncodable(inner[k]);
        }
      } else {
        forall k | k in props && !Tagged(props, BIGINT_TAG)
          ensures Encodable(Decode(props[k]))
        {
          DecodedIsEncodable(props[k]);
        }
      }
    case _ =>
  }

  // ---------- Round trip ----------

  lemma BigIntRoundTrip(i: int)
    ensures BigIntSyntax(BigIntText(i)) && BigIntValue(BigIntText(i)) == i
  {
    hide DecimalUnits, DecimalValue;
    var units := DecimalUnits(if i < 0 then -i else i);
    DecimalRoundTrip(if i < 0 then -i else i);
    assert ([MINUS] + units)[1..] == units;
  }

  predicate Survives(v: Value) {
    Decodable(Encode(v)) && Decode(Encode(v)) == v
  }

  function EncodedProps(props: map<JsString, Value>): map<JsString, Wire> {
    map k | k in props :: Encode(props[k])
  }

  function EncodedItems(items: seq<Value>): (out: seq<Wire>)
    ensures |out| == |items| && forall i :: 0 <= i < |items| ==> out[i] == Encode(items[i])
  {
    seq(|items|, i requires 0 <= i < |items| => Encode(items[i]))
  }

  function DecodedItems(items: seq<Wire>): (out: seq<Value>)
    ensures |out| == |items| && forall i :: 0 <= i < |items| ==> out[i] == Decode(items[i])
  {
    seq(|items|, i requires 0 <= i < |items| => Decode(items[i]))
  }

  function DecodedProps(props: map<JsString, Wire>): map<JsString, Value> {
    map k | k in props :: Decode(props[k])
  }

  lemma EncodeUnfolds(v: Value)
    ensures v.Arr? ==> Encode(v) == WArr(EncodedItems(v.items))
    ensures v.Obj? && LooksTagged(v.props) ==> Encode(v) == WObj(map[ESCAPE_TAG := WObj(EncodedProps(v.props))])
    ensures v.Obj? && !LooksTagged(v.props) ==> Encode(v) == WObj(EncodedProps(v.props))
  {
    if v.Arr? {
      assert EncodedItems(v.items) == seq(|v.items|, i requires 0 <= i < |v.items| => Encode(v.items[i]));
    }
  }

  lemma DecodeUnfolds(w: Wire)
    ensures w.WArr? ==> Decode(w) == Arr(DecodedItems(w.items))
    ensures w.WObj? && !Tagged(w.props, BIGINT_TAG) && !Tagged(w.props, ESCAPE_TAG) ==> Decode(w) == Obj(DecodedProps(w.props))
    ensures w.WObj? && !Tagged(w.props, BIGINT_TAG) && Tagged(w.props, ESCAPE_TAG) && w.props[ESCAPE_TAG].WObj?
      ==> Decode(w) == Obj(DecodedProps(w.props[ESCAPE_TAG].props))
  {
    if w.WArr? {
      assert DecodedItems(w.items) == seq(|w.items|, i requires 0 <= i < |w.items| => Decode(w.items[i]));
    }
  }

  lemma BigIntSurvives(i: int)
    ensures Survives(BigInt(i))
  {
    hide BigIntText, BigIntValue, BigIntSyntax;
    BigIntRoundTrip(i);
    assert Tagged(map[BIGINT_TAG := WStr(BigIntText(i))], BIGINT_TAG);
  }

  /** Whatever the encoder accepts, the decoder accepts and gives back unchanged. */
  lemma {:induction false} RoundTrip(v: Value)
    requires Encodable(v)
    ensures Survives(v)
    decreases v
  {
    match v
    case BigInt(i) =>
      BigIntSurvives(i);
    case Arr(items) =>
      forall i | 0 <= i < |items|
        ensures Survives(items[i])
      {
        RoundTrip(items[i]);
      }
    case Obj(props) =>
      forall k | k in props
        ensures Survives(props[k])
      {
        RoundTrip(props[k]);
      }
    case _ =>
  }

  /** No two values share a wire form, however they imitate the tags. */
  lemma EncodingIsInjective(a: Value, b: Value)
    requires Encodable(a) && Encodable(b) && Encode(a) == Encode(b)
    ensures a == b
  {
    hide Encode, Decode, Encodable, Decodable;
    RoundTrip(a);
    RoundTrip(b);
  }

  // ---------- The codec's loops ----------

  lemma EncodeScalars(v: Value)
    ensures v.Null? ==> Encode(v) == WNull
    ensures v.Bool? ==> Encode(v) == WBool(v.b)
    ensures v.Str? ==> Encode(v) == WStr(v.s)
    ensures v.Num? ==> Encode(v) == WNum(v.n)
    ensures v.BigInt? ==> Encode(v) == WObj(map[BIGINT_TAG := WStr(BigIntText(v.i))])
  {
  }

  lemma DecodeScalars(w: Wire)
    ensures w.WNull? ==> Decode(w) == Null
    ensures w.WBool? ==> Decode(w) == Bool(w.b)
    ensures w.WStr? ==> Decode(w) == Str(w.s)
    ensures w.WNum? ==> Decode(w) == Num(w.n)
    ensures w.WObj? && Tagged(w.props, BIGINT_TAG) && w.props[BIGINT_TAG].WStr? ==> Decode(w) == BigInt(BigIntValue(w.props[BIGINT_TAG].s))
  {
  }

  method EncodeWire(v: Value) returns (w: Option<Wire>)
    ensures w == if Encodable(v) then Some(Encode(v)) else None
    decreases v, 1
  {
    EncodeUnfolds(v);
    hide Encode, BigIntText;
    EncodeScalars(v);
    match v
    case Null => w := Some(WNull);
    case Bool(b) => w := Some(WBool(b));
    case Str(s) => w := Some(WStr(s));
    case Num(n) => w := if Crosses(n) then Some(WNum(n)) else None;
    case BigInt(i) => w := Some(WObj(map[BIGINT_TAG := WStr(BigIntText(i))]));
    case Arr(items) =>
      var out := [];
      var i := 0;
      while i < |items|
        invariant 0 <= i <= |items| && |out| == i
        invariant forall j :: 0 <= j < i ==> Encodable(items[j]) && out[j] == Encode(items[j])
      {
        var part := EncodeWire(items[i]);
        if part.None? {
          return None;
        }
        out := out + [part.value];
        i := i + 1;
      }
      assert out == EncodedItems(items);
      w := Some(WArr(out));
    case Obj(props) =>
      var out := EncodeProps(v);
      if out.None? {
        return None;
      }
      w := Some(if BIGINT_TAG in props || ESCAPE_TAG in props then WObj(map[ESCAPE_TAG := WObj(out.value)]) else WObj(out.value));
    case Hole => w := None;
    case Exotic => w := None;
  }

  method EncodeProps(v: Value) returns (out: Option<map<JsString, Wire>>)
    requires v.Obj?
    ensures out.Some? <==> Encodable(v)
    ensures out.Some? ==> out.value == EncodedProps(v.props)
    decreases v, 0
  {
    var fresh': map<JsString, Wire> := map[];
    var todo := v.props.Keys;
    while todo != {}
      invariant todo <= v.props.Keys && fresh'.Keys == v.props.Keys - todo
      invariant forall k :: k in fresh' ==> Encodable(v.props[k]) && fresh'[k] == Encode(v.props[k])
      decreases todo
    {
      var k :| k in todo;
      var part := EncodeWire(v.props[k]);
      if part.None? {
        return None;
      }
      fresh' := fresh'[k := part.value];
      todo := todo - {k};
    }
    assert fresh'.Keys == v.props.Keys;
    assert fresh' == EncodedProps(v.props);
    out := Some(fresh');
  }

  method DecodeWire(w: Wire) returns (v: Option<Value>)
    ensures v == if Decodable(w) then Some(Decode(w)) else None
    decreases w, 1
  {
    DecodeUnfolds(w);
    DecodeScalars(w);
    hide Decode, BigIntValue, BigIntSyntax;
    match w
    case WNull => v := Some(Null);
    case WBool(b) => v := Some(Bool(b));
    case WStr(s) => v := Some(Str(s));
    case WNum(n) => v := if Crosses(n) then Some(Num(n)) else None;
    case WArr(items) =>
      var out := [];
      var i := 0;
      while i < |items|
        invariant 0 <= i <= |items| && |out| == i
        invariant forall j :: 0 <= j < i ==> Decodable(items[j]) && out[j] == Decode(items[j])
      {
        var part := DecodeWire(items[i]);
        if part.None? {
          return None;
        }
        out := out + [part.value];
        i := i + 1;
      }
      assert out == DecodedItems(items);
      v := Some(Arr(out));
    case WObj(props) =>
      if props.Keys == {BIGINT_TAG} {
        var raw := props[BIGINT_TAG];
        v := if raw.WStr? && BigIntSyntax(raw.s) then Some(BigInt(BigIntValue(raw.s))) else None;
      } else if props.Keys == {ESCAPE_TAG} {
        var inner := props[ESCAPE_TAG];
        if !inner.WObj? {
          return None;
        }
        var out := DecodeProps(inner);
        v := if out.Some? then Some(Obj(out.value)) else None;
      } else {
        var out := DecodeProps(w);
        v := if out.Some? then Some(Obj(out.value)) else None;
      }
  }

  /** Decodes every property of an object, taking its keys literally. */
  method DecodeProps(w: Wire) returns (out: Option<map<JsString, Value>>)
    requires w.WObj?
    ensures out.Some? <==> forall k :: k in w.props ==> Decodable(w.props[k])
    ensures out.Some? ==> out.value == DecodedProps(w.props)
    decreases w, 0
  {
    var fresh': map<JsString, Value> := map[];
    var todo := w.props.Keys;
    while todo != {}
      invariant todo <= w.props.Keys && fresh'.Keys == w.props.Keys - todo
      invariant forall k :: k in fresh' ==> Decodable(w.props[k]) && fresh'[k] == Decode(w.props[k])
      decreases todo
    {
      var k :| k in todo;
      var part := DecodeWire(w.props[k]);
      if part.None? {
        return None;
      }
      fresh' := fresh'[k := part.value];
      todo := todo - {k};
    }
    assert fresh'.Keys == w.props.Keys;
    assert fresh' == DecodedProps(w.props);
    out := Some(fresh');
  }
}

/** Which structs an EIP-712 digest covers: reference resolution and the transitive walk. */
module TypedData {
  import opened Prelude

  datatype Field = Field(name: string, fieldType: string)

  /** The declarations that are arrays; any other entry of `types` counts as undeclared. */
  type Types = map<string, seq<Field>>

  const ARRAY_NESTING_LIMIT: nat := 32
  const STRUCT_NESTING_LIMIT: nat := 32
  const DOMAIN_TYPE := "EIP712Domain"

  // ---------- Resolving a reference ----------

  /** The last opening bracket before `end`, or -1. */
  function LastOpen(s: string, end: nat): (i: int)
    requires end <= |s|
    ensures -1 <= i < end
    ensures i >= 0 ==> s[i] == '['
    ensures forall j :: i < j < end ==> s[j] != '['
  {
    if end == 0 then -1 else if s[end - 1] == '[' then end - 1 else LastOpen(s, end - 1)
  }

  /** The name with one trailing bracket suffix gone, if it has one after a non-empty name. */
  function Stripped(name: string): (shorter: Option<string>)
    ensures shorter.Some? ==> |shorter.value| < |name|
  {
    if name == "" || name[|name| - 1] != ']' then None
    else
      var open := LastOpen(name, |name|);
      if open <= 0 then None else Some(name[..open])
  }

  /** Look the full name up; failing that, strip one suffix and look again. Also says how
      many suffixes were stripped. */
  function Lookup(types: Types, name: string): (Option<string>, nat)
    decreases |name|
  {
    if name in types then (Some(name), 0)
    else
      var shorter := Stripped(name);
      if shorter.None? then (None, 0)
      else
        var (answer, strips) := Lookup(types, shorter.value);
        (answer, strips + 1)
  }

  lemma {:induction false} LookupFindsDeclared(types: Types, name: string)
    ensures Lookup(types, name).0.Some? ==> Lookup(types, name).0.value in types && Lookup(types, name).0.value <= name
    decreases |name|
  {
    if name !in types && Stripped(name).Some? {
      LookupFindsDeclared(types, Stripped(name).value);
    }
  }

  /** A declared name refers to itself, and an array of anything to what that refers to. */
  lemma LookupMeans(types: Types, base: string, size: string)
    requires '[' !in size
    ensures base in types ==> Lookup(types, base) == (Some(base), 0)
    ensures var name := base + "[" + size + "]";
      name !in types ==>
        Lookup(types, name) == if base == "" then (None, 0) else (Lookup(types, base).0, Lookup(types, base).1 + 1)
  {
    var name := base + "[" + size + "]";
    assert name[|base|] == '[' && name[|name| - 1] == ']';
    assert forall j :: |base| < j < |name| ==> name[j] != '[' by {
      forall j | |base| < j < |name|
        ensures name[j] != '['
      {
        assert j < |name| - 1 ==> name[j] == size[j - |base| - 1];
      }
    }
    assert LastOpen(name, |name|) == |base|;
    assert name[..|base|] == base;
  }

  /** Anything else that is not declared refers to nothing. */
  lemma LookupOfPlain(types: Types, name: string)
    requires name !in types && (name == "" || name[|name| - 1] != ']')
    ensures Lookup(types, name).0 == None
  {
  }

  datatype Resolution = Resolved(key: Option<string>) | TooNested

  function Resolve(types: Types, name: string): Resolution {
    var (answer, strips) := Lookup(types, name);
    if strips <= ARRAY_NESTING_LIMIT then Resolved(answer) else TooNested
  }

  lemma LastOpenOfPrefix(s: string, end: nat)
    requires end <= |s|
    ensures LastOpen(s[..end], end) == LastOpen(s, end)
  {
    var i, j := LastOpen(s[..end], end), LastOpen(s, end);
    assert i >= 0 ==> s[i] == '[';
    assert j >= 0 ==> s[..end][j] == '[';
  }

  /** Is the first `end` characters of the name a declared key? Found by length and prefix. */
  method DeclaredPrefix(types: Types, name: string, end: nat) returns (key: Option<string>)
    requires end <= |name|
    ensures key == if name[..end] in types then Some(name[..end]) else None
  {
    var keys := types.Keys;
    while keys != {}
      invariant keys <= types.Keys
      invariant name[..end] in types ==> name[..end] in keys
      decreases keys
    {
      var k :| k in keys;
      if |k| == end && k <= name {
        assert k == name[..end];
        return Some(k);
      }
      keys := keys - {k};
    }
    return None;
  }

  /** The loop that shortens `end` instead of building shorter names. */
  method ResolveStructRef(types: Types, name: string) returns (r: Resolution)
    ensures r == Resolve(types, name)
  {
    var end := |name|;
    assert name[..end] == name;
    var level := 0;
    while level <= ARRAY_NESTING_LIMIT
      invariant 0 <= level <= ARRAY_NESTING_LIMIT + 1 && end <= |name|
      invariant Lookup(types, name) == (Lookup(types, name[..end]).0, Lookup(types, name[..end]).1 + level)
    {
      var hit := DeclaredPrefix(types, name, end);
      if hit.Some? {
        return Resolved(hit);
      }
      if end == 0 || name[end - 1] != ']' {
        return Resolved(None);
      }
      var open := LastOpen(name, end);
      LastOpenOfPrefix(name, end);
      if open <= 0 {
        return Resolved(None);
      }
      assert name[..end][..open] == name[..open];
      end := open;
      level := level + 1;
    }
    return TooNested;
  }

  // ---------- What a struct refers to ----------

  /** Field i of a declared struct refers to another declared struct (the domain excepted). */
  predicate RefersBy(types: Types, name: string, i: nat, ref: string) {
    && name in types && i < |types[name]|
    && Resolve(types, types[name][i].fieldType) == Resolved(Some(ref))
    && ref != DOMAIN_TYPE
  }

  predicate Refers(types: Types, name: string, ref: string) {
    name in types && exists i :: 0 <= i < |types[name]| && RefersBy(types, name, i, ref)
  }

  predicate Chain(types: Types, path: seq<string>) {
    && (forall i :: 0 <= i < |path| ==> path[i] in types)
    && (forall i :: 0 <= i < |path| - 1 ==> Refers(types, path[i], path[i + 1]))
  }

  /** A declared struct that a chain of references leads to from the primary type. */
  ghost predicate Reachable(types: Types, primary: string, name: string) {
    exists path :: LeadsTo(types, path, primary, name)
  }

  predicate LeadsTo(types: Types, path: seq<string>, primary: string, name: string) {
    path != [] && path[0] == primary && path[|path| - 1] == name && Chain(types, path)
  }

  function Names(fields: seq<Field>): seq<string> {
    seq(|fields|, i requires 0 <= i < |fields| => fields[i].name)
  }

  // ---------- The walk ----------

  type Struct = map<string, seq<string>>

  /** Each recorded struct is declared, and recorded with its own field names. */
  predicate Records(types: Types, struct: Struct) {
    forall k :: k in struct ==> k in types && struct[k] == Names(types[k])
  }

  predicate Grows(before: Struct, after: Struct) {
    forall k :: k in before ==> k in after && after[k] == before[k]
  }

  /** All fields of this struct were resolved, and what they refer to is recorded. */
  predicate Explored(types: Types, struct: Struct, name: string, upTo: nat) {
    name in types && forall i :: 0 <= i < upTo && i < |types[name]| ==> FieldExplored(types, struct, types[name][i])
  }

  predicate FieldExplored(types: Types, struct: Struct, f: Field) {
    var r := Resolve(types, f.fieldType);
    r.Resolved? && (r.key.Some? && r.key.value != DOMAIN_TYPE ==> r.key.value in struct)
  }

  /** Whatever the walk added is fully explored. */
  predicate NewExplored(types: Types, before: Struct, after: Struct) {
    forall k :: k in after && k !in before ==> k in types && Explored(types, after, k, |types[k]|)
  }

  /** Whatever the walk added is reachable. */
  ghost predicate AllReachable(types: Types, primary: string, struct: Struct) {
    forall k :: k in struct ==> Reachable(types, primary, k)
  }

  /** Why a walk gives up: a chain of more distinct structs than the limit, or a field of a
      reachable struct nested in too many arrays. */
  ghost predicate Uncomputable(types: Types, primary: string) {
    || (exists path :: TooDeep(types, path, primary))
    || (exists name :: Reachable(types, primary, name) && HasNestedField(types, name))
  }

  predicate TooDeep(types: Types, path: seq<string>, primary: string) {
    |path| == STRUCT_NESTING_LIMIT + 2 && path[0] == primary && Chain(types, path) && Distinct(path)
  }

  predicate Distinct(path: seq<string>) {
    forall i, j :: 0 <= i < j < |path| ==> path[i] != path[j]
  }

  predicate HasNestedField(types: Types, name: string) {
    name in types && exists i :: 0 <= i < |types[name]| && Resolve(types, types[name][i].fieldType).TooNested?
  }

  lemma ExtendChain(types: Types, path: seq<string>, primary: string, name: string, i: nat, ref: string)
    requires LeadsTo(types, path, primary, name) && RefersBy(types, name, i, ref) && ref in types
    ensures LeadsTo(types, path + [ref], primary, ref)
  {
    assert Refers(types, name, ref);
  }

  lemma ExploredGrows(types: Types, before: Struct, after: Struct, name: string, upTo: nat)
    requires Explored(types, before, name, upTo) && Grows(before, after)
    ensures Explored(types, after, name, upTo)
  {
    hide Resolve;
    forall i | 0 <= i < upTo && i < |types[name]|
      ensures FieldExplored(types, after, types[name][i])
    {
      assert FieldExplored(types, before, types[name][i]);
    }
  }

  lemma NewExploredTrans(types: Types, a: Struct, b: Struct, c: Struct)
    requires NewExplored(types, a, b) && NewExplored(types, b, c) && Grows(b, c)
    ensures NewExplored(types, a, c)
  {
    hide Explored;
    forall k | k in c && k !in a
      ensures k in types && Explored(types, c, k, |types[k]|)
    {
      if k in b {
        ExploredGrows(types, b, c, k, |types[k]|);
      }
    }
  }

  class Walk {
    const types: Types
    const primary: string
    var struct: Struct

    constructor (types: Types, primary: string)
      ensures this.types == types && this.primary == primary && struct == map[]
    {
      this.types, this.primary, struct := types, primary, map[];
    }

    ghost predicate Sound()
      reads this
    {
      Records(types, struct) && AllReachable(types, primary, struct)
    }

    /** `path` is the chain of structs being visited, the one that refers to `name` last. */
    ghost predicate MayVisit(name: string, depth: nat, path: seq<string>)
      reads this
    {
      && Sound() && |path| == depth <= STRUCT_NESTING_LIMIT + 1 && Distinct(path)
      && (forall i :: 0 <= i < |path| ==> path[i] in struct)
      && (depth == 0 ==> name == primary)
      && (depth > 0 ==> name in types && LeadsTo(types, path + [name], primary, name))
    }

    method Visit(name: string, depth: nat, ghost path: seq<string>) returns (threw: bool)
      requires MayVisit(name, depth, path)
      modifies this`struct
      ensures Sound() && Grows(old(struct), struct)
      ensures !threw ==> NewExplored(types, old(struct), struct) && (name in types ==> name in struct)
      ensures threw ==> Uncomputable(types, primary)
      decreases STRUCT_NESTING_LIMIT + 2 - depth
    {
      hide Explored, FieldExplored, Resolve, LeadsTo, Reachable, Uncomputable, Distinct, Records, AllReachable, NewExplored, Names;
      NewNothing(types, struct);
      if name in struct {
        return false;
      }
      if depth > STRUCT_NESTING_LIMIT {
        ChainTooDeep(types, struct, path, name, primary);
        return true;
      }
      if name !in types {
        return false;
      }
      ghost var before := struct;
      struct := struct[name := Names(types[name])];
      ghost var entered := struct;
      PathReaches(types, primary, name, path);
      EnterSound(types, primary, before, name);
      LongerPath(types, struct, path, name);
      NothingNew(types, struct, name);
      var i := 0;
      while i < |types[name]|
        invariant 0 <= i <= |types[name]|
        invariant Sound() && Grows(entered, struct) && NewExplored(types, entered, struct)
        invariant Explored(types, struct, name, i)
      {
        var r := ResolveStructRef(types, types[name][i].fieldType);
        ghost var mid := struct;
        if r.TooNested? {
          FieldTooNested(types, primary, name, i);
          return true;
        }
        if r.key.Some? && r.key.value != DOMAIN_TYPE {
          NextLink(types, primary, path, name, i, r.key.value);
          threw := Visit(r.key.value, depth + 1, path + [name]);
          if threw {
            return;
          }
          NewExploredTrans(types, entered, mid, struct);
        }
        ExploredNext(types, mid, struct, name, i);
        i := i + 1;
      }
      EnteredExplored(types, before, entered, struct, name);
      return false;
    }
  }

  lemma ChainTooDeep(types: Types, struct: Struct, path: seq<string>, name: string, primary: string)
    requires |path| == STRUCT_NESTING_LIMIT + 1 && Distinct(path) && name !in struct && LeadsTo(types, path + [name], primary, name)
    requires forall i :: 0 <= i < |path| ==> path[i] in struct
    ensures Uncomputable(types, primary)
  {
    hide Chain;
    assert TooDeep(types, path + [name], primary);
  }

  lemma PathReaches(types: Types, primary: string, name: string, path: seq<string>)
    requires name in types
    requires path == [] ==> name == primary
    requires path != [] ==> LeadsTo(types, path + [name], primary, name)
    ensures LeadsTo(types, path + [name], primary, name) && Reachable(types, primary, name)
  {
    if path == [] {
      assert LeadsTo(types, [name], primary, name);
    }
  }

  lemma EnterSound(types: Types, primary: string, struct: Struct, name: string)
    requires Records(types, struct) && AllReachable(types, primary, struct) && name in types && Reachable(types, primary, name)
    ensures Records(types, struct[name := Names(types[name])]) && AllReachable(types, primary, struct[name := Names(types[name])])
  {
  }

  lemma NewNothing(types: Types, struct: Struct)
    ensures NewExplored(types, struct, struct)
  {
  }

  lemma LongerPath(types: Types, struct: Struct, path: seq<string>, name: string)
    requires Distinct(path) && name in struct && forall i :: 0 <= i < |path| ==> path[i] in struct && path[i] != name
    ensures Distinct(path + [name]) && forall i :: 0 <= i < |path + [name]| ==> (path + [name])[i] in struct
  {
  }

  lemma NothingNew(types: Types, struct: Struct, name: string)
    requires name in types
    ensures NewExplored(types, struct, struct) && Explored(types, struct, name, 0)
  {
  }

  lemma FieldTooNested(types: Types, primary: string, name: string, i: nat)
    requires name in types && i < |types[name]| && Resolve(types, types[name][i].fieldType).TooNested?
    requires Reachable(types, primary, name)
    ensures Uncomputable(types, primary)
  {
    hide Resolve, Reachable;
    assert HasNestedField(types, name);
  }

  lemma NextLink(types: Types, primary: string, path: seq<string>, name: string, i: nat, ref: string)
    requires name in types && i < |types[name]| && LeadsTo(types, path + [name], primary, name)
    requires Resolve(types, types[name][i].fieldType) == Resolved(Some(ref)) && ref != DOMAIN_TYPE
    ensures ref in types && LeadsTo(types, path + [name] + [ref], primary, ref)
  {
    LookupFindsDeclared(types, types[name][i].fieldType);
    assert RefersBy(types, name, i, ref);
    ExtendChain(types, path + [name], primary, name, i, ref);
  }

  lemma ExploredNext(types: Types, mid: Struct, struct: Struct, name: string, i: nat)
    requires Explored(types, mid, name, i) && i < |types[name]| && Grows(mid, struct)
    requires var r := Resolve(types, types[name][i].fieldType);
      r.Resolved? && (r.key.Some? && r.key.value != DOMAIN_TYPE ==> r.key.value in struct)
    ensures Explored(types, struct, name, i + 1)
  {
    ExploredGrows(types, mid, struct, name, i);
    hide Resolve;
  }

  lemma EnteredExplored(types: Types, before: Struct, entered: Struct, struct: Struct, name: string)
    requires name in types && entered == before[name := Names(types[name])]
    requires NewExplored(types, entered, struct) && Explored(types, struct, name, |types[name]|)
    ensures NewExplored(types, before, struct)
  {
  }

  // ---------- The record is exactly what is reachable ----------

  lemma {:induction false} ClosedHoldsChain(types: Types, struct: Struct, path: seq<string>)
    requires path != [] && Chain(types, path) && path[0] in struct && NewExplored(types, map[], struct)
    ensures path[|path| - 1] in struct
    decreases |path|
  {
    if |path| > 1 {
      var n := |path| - 1;
      ClosedHoldsChain(types, struct, path[..n]);
      assert Refers(types, path[n - 1], path[n]);
      FollowRef(types, struct, path[n - 1], path[n]);
    }
  }

  lemma FollowRef(types: Types, struct: Struct, name: string, ref: string)
    requires name in struct && NewExplored(types, map[], struct) && Refers(types, name, ref)
    ensures ref in struct
  {
    hide Resolve;
    var i :| 0 <= i < |types[name]| && RefersBy(types, name, i, ref);
    assert FieldExplored(types, struct, types[name][i]);
  }

  lemma NestedIsNotExplored(types: Types, struct: Struct, name: string)
    requires name in struct && NewExplored(types, map[], struct)
    ensures !HasNestedField(types, name)
  {
    hide Resolve;
  }

  /** When the record is computed it holds exactly the declared structs reachable from the
      primary type, also for cyclic declarations, each with its field names; it is refused
      only for a reason, and always when a reachable field is nested too deep. */
  method CommittedFieldSet(types: Types, primary: string) returns (struct: Option<Struct>)
    ensures struct.Some? ==> forall k :: k in struct.value <==> Reachable(types, primary, k)
    ensures struct.Some? ==> Records(types, struct.value)
    ensures struct.Some? ==> forall k :: Reachable(types, primary, k) ==> !HasNestedField(types, k)
    ensures struct.None? ==> Uncomputable(types, primary)
  {
    hide Reachable, LeadsTo, Uncomputable, HasNestedField, Explored;
    var walk := new Walk(types, primary);
    var threw := walk.Visit(primary, 0, []);
    if threw {
      return None;
    }
    struct := Some(walk.struct);
    forall k | Reachable(types, primary, k)
      ensures k in struct.value && !HasNestedField(types, k)
    {
      ReachableRecorded(types, primary, struct.value, k);
      NestedIsNotExplored(types, struct.value, k);
    }
  }

  lemma ReachableRecorded(types: Types, primary: string, struct: Struct, name: string)
    requires primary in types ==> primary in struct
    requires NewExplored(types, map[], struct) && Reachable(types, primary, name)
    ensures name in struct
  {
    var path :| LeadsTo(types, path, primary, name);
    ClosedHoldsChain(types, struct, path);
  }

  // ---------- Small declarations are never too deep ----------

  lemma {:induction false} DistinctFits(path: seq<string>, names: set<string>)
    requires Distinct(path) && forall i :: 0 <= i < |path| ==> path[i] in names
    ensures |path| <= |names|
  {
    if path != [] {
      var n := |path| - 1;
      DistinctFits(path[..n], names - {path[n]});
    }
  }

  /** With at most as many structs as the nesting limit allows, depth is never the reason. */
  lemma FewStructsFit(types: Types, primary: string)
    requires |types| <= STRUCT_NESTING_LIMIT + 1 && Uncomputable(types, primary)
    ensures exists name :: Reachable(types, primary, name) && HasNestedField(types, name)
  {
    if path :| TooDeep(types, path, primary) {
      DistinctFits(path, types.Keys);
    }
  }
}

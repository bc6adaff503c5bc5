/** What grouping witnesses by key material means, and exactly when it keeps its promise that
  names sharing any key are one party.
 */
module Parties {
  import opened Prelude
  import opened Quorum

  // ---------- What grouping means ----------

  predicate HasKey(w: KnownWitness) {
    KeyFingerprints(w) != []
  }

  predicate ShareAKey(a: KnownWitness, b: KnownWitness) {
    exists fp :: fp in KeyFingerprints(a) && fp in KeyFingerprints(b)
  }

  /** Names that share any key are one party. */
  ghost predicate SharersAreOneParty(unique: seq<KnownWitness>) {
    var g := GroupParties(unique);
    forall a, b :: a in unique && b in unique && ShareAKey(a, b) && a.name in g.nameToParty && b.name in g.nameToParty ==>
      g.nameToParty[a.name] == g.nameToParty[b.name]
  }

  /** Two of w's keys are already filed under different parties. */
  predicate Bridges(g: Grouping, w: KnownWitness) {
    && w.ed25519.Some? && w.mlDsa44.Some?
    && var ed, ml := Fingerprint(Ed25519, w.ed25519.value), Fingerprint(MlDsa44, w.mlDsa44.value);
       ed in g.fpToParty && ml in g.fpToParty && g.fpToParty[ed] != g.fpToParty[ml]
  }

  predicate NeverBridges(unique: seq<KnownWitness>) {
    unique == [] || (
      && NeverBridges(unique[..|unique| - 1])
      && !Bridges(GroupParties(unique[..|unique| - 1]), unique[|unique| - 1]))
  }

  /** Facts the grouping keeps for every witness list with distinct names. */
  ghost predicate GroupingFacts(unique: seq<KnownWitness>, g: Grouping) {
    NameFacts(unique, g) && KeyFacts(unique, g)
  }

  ghost predicate NameFacts(unique: seq<KnownWitness>, g: Grouping) {
    && (forall w :: w in unique ==> (w.name in g.nameToParty <==> HasKey(w)))
    && (forall n :: n in g.nameToParty ==> g.nameToParty[n] < g.parties)
    && (forall n :: n in g.nameToParty ==> exists w :: w in unique && w.name == n)
  }

  ghost predicate KeyFacts(unique: seq<KnownWitness>, g: Grouping) {
    && (forall fp :: fp in g.fpToParty ==> exists w :: w in unique && fp in KeyFingerprints(w) && w.name in g.nameToParty && g.nameToParty[w.name] == g.fpToParty[fp])
    && (forall w, fp :: w in unique && fp in KeyFingerprints(w) ==> fp in g.fpToParty)
  }

  /** One grouping step, read as facts about its result. */
  lemma GroupStepFacts(g: Grouping, w: KnownWitness)
    requires HasKey(w)
    ensures
      var next, fps := GroupStep(g, w), KeyFingerprints(w);
      && w.name in next.nameToParty
      && var party := next.nameToParty[w.name];
      && next.nameToParty == g.nameToParty[w.name := party]
      && (forall fp :: fp in next.fpToParty <==> fp in g.fpToParty || fp in fps)
      && (forall fp :: fp in next.fpToParty ==> next.fpToParty[fp] == if fp in fps then party else g.fpToParty[fp])
      && if forall fp :: fp in fps ==> fp !in g.fpToParty
         then party == g.parties && next.parties == g.parties + 1
         else next.parties == g.parties && exists fp :: fp in fps && fp in g.fpToParty && g.fpToParty[fp] == party
  {
    KnownPartyFacts(g, KeyFingerprints(w));
  }

  lemma {:induction false} KnownPartyFacts(g: Grouping, fps: seq<Fingerprint>)
    ensures KnownParty(g, fps).None? <==> forall fp :: fp in fps ==> fp !in g.fpToParty
    ensures KnownParty(g, fps).Some? ==> exists fp :: fp in fps && fp in g.fpToParty && g.fpToParty[fp] == KnownParty(g, fps).value
  {
    if fps != [] {
      assert fps[0] in fps && forall fp :: fp in fps <==> fp == fps[0] || fp in fps[1..];
      if fps[0] !in g.fpToParty {
        KnownPartyFacts(g, fps[1..]);
      }
    }
  }

  lemma {:induction false} GroupingKeepsFacts(unique: seq<KnownWitness>)
    requires DistinctNames(unique)
    ensures GroupingFacts(unique, GroupParties(unique))
  {
    if unique != [] {
      var before, w := unique[..|unique| - 1], unique[|unique| - 1];
      GroupingKeepsFacts(before);
      var g := GroupParties(before);
      assert unique == before + [w];
      GroupingFactsExtend(before, w, g);
    }
  }

  lemma GroupingFactsExtend(before: seq<KnownWitness>, w: KnownWitness, g: Grouping)
    requires DistinctNames(before + [w]) && GroupingFacts(before, g)
    ensures GroupingFacts(before + [w], GroupStep(g, w))
  {
    hide GroupStep, KeyFingerprints;
    if HasKey(w) {
      GroupingFactsStep(before, w, g, GroupStep(g, w));
    } else {
      KeylessStep(g, w);
      NoKeyNoName(before, w, g);
    }
  }

  lemma NoKeyNoName(before: seq<KnownWitness>, w: KnownWitness, g: Grouping)
    requires DistinctNames(before + [w]) && GroupingFacts(before, g) && !HasKey(w)
    ensures GroupingFacts(before + [w], g)
  {
    hide KeyFingerprints;
    var unique := before + [w];
    assert forall v :: v in unique <==> v in before || v == w;
    forall v | v in before
      ensures v.name != w.name
    {
      NamesDiffer(before, w, v);
    }
  }

  lemma KeylessStep(g: Grouping, w: KnownWitness)
    requires !HasKey(w)
    ensures GroupStep(g, w) == g
  {
  }

  lemma GroupingFactsStep(before: seq<KnownWitness>, w: KnownWitness, g: Grouping, next: Grouping)
    requires DistinctNames(before + [w]) && GroupingFacts(before, g) && HasKey(w)
    requires next == GroupStep(g, w)
    ensures GroupingFacts(before + [w], next)
  {
    hide KeyFacts, NameFacts, GroupStep, KeyFingerprints, HasKey;
    NameFactsStep(before, w, g, next);
    KeyFactsStep(before, w, g, next);
  }

  lemma NameFactsStep(before: seq<KnownWitness>, w: KnownWitness, g: Grouping, next: Grouping)
    requires DistinctNames(before + [w]) && GroupingFacts(before, g) && HasKey(w) && next == GroupStep(g, w)
    ensures NameFacts(before + [w], next)
  {
    hide GroupStep, KeyFingerprints;
    GroupStepFacts(g, w);
    hide HasKey, DistinctNames;
    var unique := before + [w];
    assert w in unique;
    forall n | n in next.nameToParty
      ensures exists v :: v in unique && v.name == n
    {
      if n != w.name {
        var v :| v in before && v.name == n;
        assert v in unique;
      }
    }
    forall n | n in next.nameToParty
      ensures next.nameToParty[n] < next.parties
    {
      PartyIsOld(before, g, w, next);
    }
    forall v | v in before
      ensures v.name in next.nameToParty <==> HasKey(v)
    {
      NamesDiffer(before, w, v);
    }
  }

  lemma PartyIsOld(before: seq<KnownWitness>, g: Grouping, w: KnownWitness, next: Grouping)
    requires GroupingFacts(before, g) && HasKey(w) && next == GroupStep(g, w)
    ensures w.name in next.nameToParty && next.nameToParty[w.name] < next.parties && g.parties <= next.parties
  {
    hide GroupStep, KeyFingerprints;
    GroupStepFacts(g, w);
    if fp :| fp in KeyFingerprints(w) && fp in g.fpToParty {
      var known :| known in KeyFingerprints(w) && known in g.fpToParty && g.fpToParty[known] == next.nameToParty[w.name];
      var v := HolderOf(before, g, known);
    }
  }

  lemma HolderOf(unique: seq<KnownWitness>, g: Grouping, fp: Fingerprint) returns (w: KnownWitness)
    requires GroupingFacts(unique, g) && fp in g.fpToParty
    ensures w in unique && fp in KeyFingerprints(w) && w.name in g.nameToParty && g.nameToParty[w.name] == g.fpToParty[fp]
  {
    hide KeyFingerprints;
    w :| w in unique && fp in KeyFingerprints(w) && w.name in g.nameToParty && g.nameToParty[w.name] == g.fpToParty[fp];
  }

  lemma KeyFactsStep(before: seq<KnownWitness>, w: KnownWitness, g: Grouping, next: Grouping)
    requires DistinctNames(before + [w]) && GroupingFacts(before, g) && HasKey(w) && next == GroupStep(g, w)
    ensures KeyFacts(before + [w], next)
  {
    hide GroupStep, KeyFingerprints;
    GroupStepFacts(g, w);
    hide HasKey, DistinctNames;
    var unique := before + [w];
    assert w in unique;
    forall fp | fp in next.fpToParty
      ensures exists v :: v in unique && fp in KeyFingerprints(v) && v.name in next.nameToParty && next.nameToParty[v.name] == next.fpToParty[fp]
    {
      if fp !in KeyFingerprints(w) {
        var v := HolderOf(before, g, fp);
        NamesDiffer(before, w, v);
        assert v in unique;
      }
    }
  }

  lemma NamesDiffer(before: seq<KnownWitness>, w: KnownWitness, v: KnownWitness)
    requires DistinctNames(before + [w]) && v in before
    ensures v.name != w.name
  {
    var i :| 0 <= i < |before| && before[i] == v;
    assert (before + [w])[i] == v && (before + [w])[|before|] == w;
  }

  // ---------- When sharers really are one party ----------

  /** While nothing bridges, each key is filed under the party of every witness holding it. */
  ghost predicate KeysFollowNames(unique: seq<KnownWitness>, g: Grouping) {
    forall w, fp :: w in unique && fp in KeyFingerprints(w) ==>
      w.name in g.nameToParty && fp in g.fpToParty && g.fpToParty[fp] == g.nameToParty[w.name]
  }

  /** The bridging test is exactly two different known parties among the keys. */
  lemma BridgesMeans(g: Grouping, w: KnownWitness)
    ensures Bridges(g, w) <==> exists x, y ::
      x in KeyFingerprints(w) && y in KeyFingerprints(w) && x in g.fpToParty && y in g.fpToParty && g.fpToParty[x] != g.fpToParty[y]
  {
    if Bridges(g, w) {
      var ed, ml := Fingerprint(Ed25519, w.ed25519.value), Fingerprint(MlDsa44, w.mlDsa44.value);
      assert ed in KeyFingerprints(w) && ml in KeyFingerprints(w);
    }
  }

  lemma KeysFollowNamesExtend(before: seq<KnownWitness>, w: KnownWitness, g: Grouping)
    requires DistinctNames(before + [w]) && GroupingFacts(before, g) && KeysFollowNames(before, g) && !Bridges(g, w)
    ensures KeysFollowNames(before + [w], GroupStep(g, w))
  {
    BridgesMeans(g, w);
    hide GroupStep, KeyFingerprints, Bridges;
    if HasKey(w) {
      GroupStepFacts(g, w);
      var next := GroupStep(g, w);
      forall v, fp | v in before + [w] && fp in KeyFingerprints(v)
        ensures v.name in next.nameToParty && fp in next.fpToParty && next.fpToParty[fp] == next.nameToParty[v.name]
      {
        if v != w {
          NamesDiffer(before, w, v);
        }
      }
    } else {
      KeylessStep(g, w);
    }
  }

  lemma {:induction false} NeverBridgingKeepsKeys(unique: seq<KnownWitness>)
    requires DistinctNames(unique) && NeverBridges(unique)
    ensures KeysFollowNames(unique, GroupParties(unique))
  {
    hide *;
    if unique == [] {
      assert KeysFollowNames([], GroupParties([])) by {
        NothingToFollow();
      }
    } else {
      var before, w := unique[..|unique| - 1], unique[|unique| - 1];
      assert unique == before + [w];
      DistinctBefore(before, w);
      NeverBridgesSnoc(before, w);
      NeverBridgingKeepsKeys(before);
      GroupingKeepsFacts(before);
      GroupPartiesOfSnoc(before, w);
      KeysFollowNamesExtend(before, w, GroupParties(before));
    }
  }

  lemma NothingToFollow()
    ensures KeysFollowNames([], GroupParties([]))
  {
  }

  lemma DistinctBefore(before: seq<KnownWitness>, w: KnownWitness)
    requires DistinctNames(before + [w])
    ensures DistinctNames(before)
  {
    forall i, j | 0 <= i < j < |before|
      ensures before[i].name != before[j].name
    {
      assert (before + [w])[i] == before[i] && (before + [w])[j] == before[j];
    }
  }

  lemma NeverBridgesSnoc(before: seq<KnownWitness>, w: KnownWitness)
    ensures NeverBridges(before + [w]) <==> NeverBridges(before) && !Bridges(GroupParties(before), w)
  {
    hide Bridges, GroupParties;
    assert (before + [w])[..|before|] == before;
  }

  lemma GroupPartiesOfSnoc(before: seq<KnownWitness>, w: KnownWitness)
    ensures GroupParties(before + [w]) == GroupStep(GroupParties(before), w)
  {
    assert (before + [w])[..|before|] == before;
  }

  lemma BridgedKeys(g: Grouping, w: KnownWitness) returns (x: Fingerprint, y: Fingerprint)
    requires Bridges(g, w)
    ensures x in KeyFingerprints(w) && y in KeyFingerprints(w)
    ensures x in g.fpToParty && y in g.fpToParty && g.fpToParty[x] != g.fpToParty[y]
  {
    x, y := Fingerprint(Ed25519, w.ed25519.value), Fingerprint(MlDsa44, w.mlDsa44.value);
  }

  /** One bridging witness breaks the promise for good. */
  lemma BridgingBreaks(before: seq<KnownWitness>, w: KnownWitness)
    requires DistinctNames(before + [w]) && Bridges(GroupParties(before), w)
    ensures !SharersAreOneParty(before + [w])
  {
    hide *;
    var g := GroupParties(before);
    DistinctBefore(before, w);
    GroupingKeepsFacts(before);
    var x, y := BridgedKeys(g, w);
    var a := HolderOf(before, g, x);
    var b := HolderOf(before, g, y);
    TwoSharersApart(before, w, a, b, x, y);
  }

  lemma TwoSharersApart(before: seq<KnownWitness>, w: KnownWitness, a: KnownWitness, b: KnownWitness, x: Fingerprint, y: Fingerprint)
    requires DistinctNames(before + [w]) && a in before && b in before
    requires x in KeyFingerprints(a) && x in KeyFingerprints(w) && y in KeyFingerprints(b) && y in KeyFingerprints(w)
    requires
      var names := GroupParties(before).nameToParty;
      a.name in names && b.name in names && names[a.name] != names[b.name]
    ensures !SharersAreOneParty(before + [w])
  {
    hide GroupStep, KeyFingerprints, GroupParties;
    var unique, g := before + [w], GroupParties(before);
    NamesDiffer(before, w, a);
    NamesDiffer(before, w, b);
    GroupStepFacts(g, w);
    GroupPartiesOfSnoc(before, w);
    assert ShareAKey(a, w) && ShareAKey(b, w);
    assert a in unique && b in unique && w in unique;
  }

  /** Adding a witness does not repair two sharers that were kept apart. */
  lemma ApartStaysApart(before: seq<KnownWitness>, w: KnownWitness)
    requires DistinctNames(before + [w]) && !SharersAreOneParty(before)
    ensures !SharersAreOneParty(before + [w])
  {
    hide GroupStep, KeyFingerprints, GroupParties, ShareAKey;
    var unique, g := before + [w], GroupParties(before);
    var a, b :| a in before && b in before && ShareAKey(a, b) && a.name in g.nameToParty && b.name in g.nameToParty
      && g.nameToParty[a.name] != g.nameToParty[b.name];
    NamesDiffer(before, w, a);
    NamesDiffer(before, w, b);
    GroupPartiesOfSnoc(before, w);
    if HasKey(w) {
      GroupStepFacts(g, w);
    } else {
      KeylessStep(g, w);
    }
    assert a in unique && b in unique;
  }

  lemma FollowersAreOneParty(unique: seq<KnownWitness>)
    requires KeysFollowNames(unique, GroupParties(unique))
    ensures SharersAreOneParty(unique)
  {
    hide KeyFingerprints, GroupParties;
    var g := GroupParties(unique);
    forall a, b | a in unique && b in unique && ShareAKey(a, b) && a.name in g.nameToParty && b.name in g.nameToParty
      ensures g.nameToParty[a.name] == g.nameToParty[b.name]
    {
      var fp :| fp in KeyFingerprints(a) && fp in KeyFingerprints(b);
      assert g.fpToParty[fp] == g.nameToParty[a.name];
      assert g.fpToParty[fp] == g.nameToParty[b.name];
    }
  }

  /** The grouping promise holds exactly when no witness, on arrival, holds keys already filed
      under two different parties. */
  lemma {:induction false} OnePartyIffNeverBridges(unique: seq<KnownWitness>)
    requires DistinctNames(unique)
    ensures SharersAreOneParty(unique) <==> NeverBridges(unique)
  {
    hide *;
    if NeverBridges(unique) {
      NeverBridgingKeepsKeys(unique);
      FollowersAreOneParty(unique);
    } else {
      EmptyNeverBridges();
      var before, w := unique[..|unique| - 1], unique[|unique| - 1];
      assert unique == before + [w];
      DistinctBefore(before, w);
      NeverBridgesSnoc(before, w);
      OnePartyIffNeverBridges(before);
      if !NeverBridges(before) {
        ApartStaysApart(before, w);
      } else {
        BridgingBreaks(before, w);
      }
    }
  }

  lemma EmptyNeverBridges()
    ensures NeverBridges([])
  {
  }

  // ---------- The same, read off the witness list ----------

  predicate Held(before: seq<KnownWitness>, fp: Fingerprint) {
    exists w :: w in before && fp in KeyFingerprints(w)
  }

  /** Some witness holds both keys. */
  predicate Adjacent(before: seq<KnownWitness>, x: Fingerprint, y: Fingerprint) {
    exists w :: w in before && x in KeyFingerprints(w) && y in KeyFingerprints(w)
  }

  predicate Chain(before: seq<KnownWitness>, path: seq<Fingerprint>) {
    path != [] && forall k :: 0 <= k < |path| - 1 ==> Adjacent(before, path[k], path[k + 1])
  }

  /** A chain of shared keys leads from one key to the other. */
  ghost predicate Joined(before: seq<KnownWitness>, x: Fingerprint, y: Fingerprint) {
    exists path: seq<Fingerprint> :: Chain(before, path) && path[0] == x && path[|path| - 1] == y
  }

  /** Both keys of w occur among the witnesses before it, and no chain there joins them. */
  ghost predicate JoinsApart(before: seq<KnownWitness>, w: KnownWitness) {
    && w.ed25519.Some? && w.mlDsa44.Some?
    && var ed, ml := Fingerprint(Ed25519, w.ed25519.value), Fingerprint(MlDsa44, w.mlDsa44.value);
       Held(before, ed) && Held(before, ml) && !Joined(before, ed, ml)
  }

  /** Whenever both keys of a witness occur before it, a chain there already joins them. */
  ghost predicate KeysComeJoined(unique: seq<KnownWitness>) {
    forall k :: 0 <= k < |unique| ==> !JoinsApart(unique[..k], unique[k])
  }

  lemma JoinedGrows(before: seq<KnownWitness>, w: KnownWitness, x: Fingerprint, y: Fingerprint)
    requires Joined(before, x, y)
    ensures Joined(before + [w], x, y)
  {
    hide KeyFingerprints;
    var path: seq<Fingerprint> :| Chain(before, path) && path[0] == x && path[|path| - 1] == y;
    forall k | 0 <= k < |path| - 1
      ensures Adjacent(before + [w], path[k], path[k + 1])
    {
      var v :| v in before && path[k] in KeyFingerprints(v) && path[k + 1] in KeyFingerprints(v);
      assert v in before + [w];
    }
    assert Chain(before + [w], path);
  }

  lemma JoinedOver(before: seq<KnownWitness>, x: Fingerprint, y: Fingerprint, z: Fingerprint)
    requires Joined(before, x, y) && Joined(before, y, z)
    ensures Joined(before, x, z)
  {
    hide Adjacent;
    var p: seq<Fingerprint> :| Chain(before, p) && p[0] == x && p[|p| - 1] == y;
    var q: seq<Fingerprint> :| Chain(before, q) && q[0] == y && q[|q| - 1] == z;
    var path := p + q[1..];
    forall k | 0 <= k < |path| - 1
      ensures Adjacent(before, path[k], path[k + 1])
    {
      if k >= |p| - 1 {
        assert path[k] == q[k - |p| + 1] && path[k + 1] == q[k - |p| + 2];
      }
    }
    assert Chain(before, path);
  }

  lemma JoinedByOne(before: seq<KnownWitness>, w: KnownWitness, x: Fingerprint, y: Fingerprint)
    requires w in before && x in KeyFingerprints(w) && y in KeyFingerprints(w)
    ensures Joined(before, x, y)
  {
    hide KeyFingerprints;
    assert Adjacent(before, x, y);
    assert Chain(before, [x, y]);
  }

  /** Keys filed under one party are joined by a chain, bridges or not. */
  ghost predicate PartiesAreJoined(unique: seq<KnownWitness>, g: Grouping) {
    forall x, y :: x in g.fpToParty && y in g.fpToParty && g.fpToParty[x] == g.fpToParty[y] ==> Joined(unique, x, y)
  }

  lemma KeyPartyIsOld(before: seq<KnownWitness>, g: Grouping, fp: Fingerprint)
    requires GroupingFacts(before, g) && fp in g.fpToParty
    ensures g.fpToParty[fp] < g.parties
  {
    var v := HolderOf(before, g, fp);
  }

  /** A key of the newcomer and an old key of its party. */
  lemma NewcomerIsJoined(before: seq<KnownWitness>, w: KnownWitness, g: Grouping, next: Grouping, x: Fingerprint, y: Fingerprint)
    requires GroupingFacts(before, g) && PartiesAreJoined(before, g) && HasKey(w) && next == GroupStep(g, w)
    requires x in KeyFingerprints(w) && y !in KeyFingerprints(w)
    requires x in next.fpToParty && y in next.fpToParty && next.fpToParty[x] == next.fpToParty[y]
    ensures Joined(before + [w], x, y) && Joined(before + [w], y, x)
  {
    hide GroupStep, KeyFingerprints, Joined;
    GroupStepFacts(g, w);
    KeyPartyIsOld(before, g, y);
    var z :| z in KeyFingerprints(w) && z in g.fpToParty && g.fpToParty[z] == next.nameToParty[w.name];
    JoinedByOne(before + [w], w, x, z);
    JoinedByOne(before + [w], w, z, x);
    JoinedGrows(before, w, z, y);
    JoinedGrows(before, w, y, z);
    JoinedOver(before + [w], x, z, y);
    JoinedOver(before + [w], y, z, x);
  }

  lemma PartiesAreJoinedStep(before: seq<KnownWitness>, w: KnownWitness, g: Grouping, next: Grouping)
    requires GroupingFacts(before, g) && PartiesAreJoined(before, g) && HasKey(w) && next == GroupStep(g, w)
    ensures PartiesAreJoined(before + [w], next)
  {
    hide GroupStep, KeyFingerprints, Joined;
    GroupStepFacts(g, w);
    forall x, y | x in next.fpToParty && y in next.fpToParty && next.fpToParty[x] == next.fpToParty[y]
      ensures Joined(before + [w], x, y)
    {
      if x in KeyFingerprints(w) && y in KeyFingerprints(w) {
        JoinedByOne(before + [w], w, x, y);
      } else if x in KeyFingerprints(w) {
        NewcomerIsJoined(before, w, g, next, x, y);
      } else if y in KeyFingerprints(w) {
        NewcomerIsJoined(before, w, g, next, y, x);
      } else {
        JoinedGrows(before, w, x, y);
      }
    }
  }

  lemma {:induction false} GroupingJoins(unique: seq<KnownWitness>)
    requires DistinctNames(unique)
    ensures PartiesAreJoined(unique, GroupParties(unique))
  {
    if unique == [] {
      EmptyGrouping();
    } else {
      hide *;
      var before, w := unique[..|unique| - 1], unique[|unique| - 1];
      assert unique == before + [w];
      DistinctBefore(before, w);
      GroupingJoins(before);
      GroupingKeepsFacts(before);
      GroupPartiesOfSnoc(before, w);
      if HasKey(w) {
        PartiesAreJoinedStep(before, w, GroupParties(before), GroupStep(GroupParties(before), w));
      } else {
        KeylessStep(GroupParties(before), w);
        StillJoined(before, w, GroupParties(before));
      }
    }
  }

  lemma StillJoined(before: seq<KnownWitness>, w: KnownWitness, g: Grouping)
    requires PartiesAreJoined(before, g)
    ensures PartiesAreJoined(before + [w], g)
  {
    hide Joined;
    forall x, y | x in g.fpToParty && y in g.fpToParty && g.fpToParty[x] == g.fpToParty[y]
      ensures Joined(before + [w], x, y)
    {
      JoinedGrows(before, w, x, y);
    }
  }

  /** While each key is filed with its holders, a chain never leaves a party. */
  lemma {:induction false} ChainStaysInParty(unique: seq<KnownWitness>, g: Grouping, path: seq<Fingerprint>)
    requires KeysFollowNames(unique, g) && Chain(unique, path) && path[0] in g.fpToParty
    ensures path[|path| - 1] in g.fpToParty && g.fpToParty[path[|path| - 1]] == g.fpToParty[path[0]]
  {
    hide KeyFingerprints;
    if |path| > 1 {
      var n := |path| - 1;
      assert forall k :: 0 <= k < n ==> path[..n][k] == path[k];
      ChainStaysInParty(unique, g, path[..n]);
      assert Adjacent(unique, path[n - 1], path[n - 1 + 1]);
    }
  }

  lemma JoinedStaysInParty(unique: seq<KnownWitness>, g: Grouping, x: Fingerprint, y: Fingerprint)
    requires KeysFollowNames(unique, g) && Joined(unique, x, y) && x in g.fpToParty
    ensures y in g.fpToParty && g.fpToParty[y] == g.fpToParty[x]
  {
    hide KeysFollowNames, Adjacent;
    var path: seq<Fingerprint> :| Chain(unique, path) && path[0] == x && path[|path| - 1] == y;
    ChainStaysInParty(unique, g, path);
  }

  lemma HeldIsFiled(unique: seq<KnownWitness>, g: Grouping, fp: Fingerprint)
    requires GroupingFacts(unique, g)
    ensures Held(unique, fp) <==> fp in g.fpToParty
  {
    hide KeyFingerprints;
    if fp in g.fpToParty {
      var v := HolderOf(unique, g, fp);
    }
  }

  /** While nothing has bridged, the party of a key is its chain. */
  lemma BridgesIffJoinsApart(before: seq<KnownWitness>, w: KnownWitness)
    requires DistinctNames(before) && NeverBridges(before)
    ensures Bridges(GroupParties(before), w) <==> JoinsApart(before, w)
  {
    hide GroupParties, KeyFingerprints, NeverBridges, Joined, Held, GroupingFacts, KeysFollowNames;
    var g := GroupParties(before);
    GroupingKeepsFacts(before);
    GroupingJoins(before);
    NeverBridgingKeepsKeys(before);
    if w.ed25519.Some? && w.mlDsa44.Some? {
      var ed, ml := Fingerprint(Ed25519, w.ed25519.value), Fingerprint(MlDsa44, w.mlDsa44.value);
      HeldIsFiled(before, g, ed);
      HeldIsFiled(before, g, ml);
      if ed in g.fpToParty && Joined(before, ed, ml) {
        JoinedStaysInParty(before, g, ed, ml);
      }
    }
  }

  lemma KeysComeJoinedSnoc(before: seq<KnownWitness>, w: KnownWitness)
    ensures KeysComeJoined(before + [w]) <==> KeysComeJoined(before) && !JoinsApart(before, w)
  {
    hide JoinsApart;
    var all := before + [w];
    assert all[..|before|] == before && all[|before|] == w;
    forall k | 0 <= k < |before|
      ensures all[..k] == before[..k] && all[k] == before[k]
    {
    }
    if KeysComeJoined(all) {
      forall k | 0 <= k < |before|
        ensures !JoinsApart(before[..k], before[k])
      {
        assert !JoinsApart(all[..k], all[k]);
      }
      assert !JoinsApart(all[..|before|], all[|before|]);
    }
  }

  /** Bridging can be read off the list alone. */
  lemma {:induction false} NeverBridgesIffKeysComeJoined(unique: seq<KnownWitness>)
    requires DistinctNames(unique)
    ensures NeverBridges(unique) <==> KeysComeJoined(unique)
  {
    hide *;
    if unique == [] {
      EmptyNeverBridges();
      NothingComes();
    } else {
      var before, w := unique[..|unique| - 1], unique[|unique| - 1];
      assert unique == before + [w];
      DistinctBefore(before, w);
      NeverBridgesSnoc(before, w);
      KeysComeJoinedSnoc(before, w);
      NeverBridgesIffKeysComeJoined(before);
      if NeverBridges(before) {
        BridgesIffJoinsApart(before, w);
      }
    }
  }

  lemma NothingComes()
    ensures KeysComeJoined([])
  {
  }

  /** The promise, on the witness list alone: names sharing any key are one party exactly when,
      for every witness both of whose keys occur before it, a chain of shared keys among the
      witnesses before it already joins them. */
  lemma OnePartyIffKeysComeJoined(unique: seq<KnownWitness>)
    requires DistinctNames(unique)
    ensures SharersAreOneParty(unique) <==> KeysComeJoined(unique)
  {
    hide *;
    OnePartyIffNeverBridges(unique);
    NeverBridgesIffKeysComeJoined(unique);
  }

  /** A list for which it fails: "c" holds a's Ed25519 key and b's ML-DSA key, yet a and b
      stay two parties, so one operator can fill two places of a quorum. */
  lemma BridgingExample()
    ensures
      var a, b := KnownWitness("a", Some("K"), None), KnownWitness("b", None, Some("L"));
      var c := KnownWitness("c", Some("K"), Some("L"));
      && ShareAKey(b, c)
      && GroupParties([a, b, c]).nameToParty == map["a" := 0, "b" := 1, "c" := 0]
      && GroupParties([a, b, c]).parties == 2
  {
    hide *;
    var a, b := KnownWitness("a", Some("K"), None), KnownWitness("b", None, Some("L"));
    var c := KnownWitness("c", Some("K"), Some("L"));
    EmptyGrouping();
    GroupPartiesOfSnoc([], a);
    GroupPartiesOfSnoc([a], b);
    GroupPartiesOfSnoc([a, b], c);
    assert [] + [a] == [a] && [a] + [b] == [a, b] && [a, b] + [c] == [a, b, c];
    ExampleSteps(a, b, c);
  }

  lemma ExampleSteps(a: KnownWitness, b: KnownWitness, c: KnownWitness)
    requires a == KnownWitness("a", Some("K"), None) && b == KnownWitness("b", None, Some("L"))
    requires c == KnownWitness("c", Some("K"), Some("L"))
    ensures ShareAKey(b, c)
    ensures
      var g := GroupStep(GroupStep(GroupStep(NO_PARTIES, a), b), c);
      g.nameToParty == map["a" := 0, "b" := 1, "c" := 0] && g.parties == 2
  {
    var k, l := Fingerprint(Ed25519, "K"), Fingerprint(MlDsa44, "L");
    assert KeyFingerprints(a) == [k] && KeyFingerprints(b) == [l] && KeyFingerprints(c) == [k, l];
    assert l in KeyFingerprints(b) && l in KeyFingerprints(c);
    hide KeyFingerprints;
    assert GroupStep(NO_PARTIES, a) == Grouping(map[k := 0], map["a" := 0], 1);
    assert [l][1..] == [] && KnownParty(Grouping(map[k := 0], map["a" := 0], 1), [l]) == None;
    assert Record(map[k := 0], [l], 1) == map[k := 0, l := 1];
    assert GroupStep(Grouping(map[k := 0], map["a" := 0], 1), b)
        == Grouping(map[k := 0, l := 1], map["a" := 0, "b" := 1], 2);
    assert KnownParty(Grouping(map[k := 0, l := 1], map["a" := 0, "b" := 1], 2), [k, l]) == Some(0);
  }

  lemma EmptyGrouping()
    ensures GroupParties([]) == NO_PARTIES
  {
  }
}

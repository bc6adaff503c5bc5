/** Append-only consistency proofs (sections 2.1.4.1 and 2.1.4.2 of RFC 9162).

  The verifier sees two roots and a list of digests; the theorems say what its acceptance
  means for every leaf list the larger root can stand for.
 */
module Consistency {
  import opened Prelude
  import opened Merkle

  // ---------- The prover ----------

  /** SUBPROOF(m, D[n], b) of section 2.1.4.1 of RFC 9162. */
  function SubProof(m: nat, leaves: seq<Digest>, complete: bool): seq<Digest>
    requires 1 <= m <= |leaves|
    decreases |leaves|
  {
    if m == |leaves| then (if complete then [] else [Root(leaves)])
    else
      var k := Split(|leaves|);
      if m <= k then SubProof(m, leaves[..k], complete) + [Root(leaves[k..])]
      else SubProof(m - k, leaves[k..], false) + [Root(leaves[..k])]
  }

  method Subproof(leaves: seq<Digest>, m: nat, start: nat, end: nat, complete: bool, out: seq<Digest>)
    returns (extended: seq<Digest>)
    requires start <= end <= |leaves| && 1 <= m <= end - start
    ensures extended == out + SubProof(m, leaves[start..end], complete)
    decreases end - start
  {
    hide *;
    var n := end - start;
    if m == n {
      SubProofOfWhole(leaves[start..end], complete);
      if complete {
        return out;
      }
      var root := SubtreeRoot(leaves, start, end);
      return out + [root];
    }
    var k := SplitPoint(n);
    SliceParts(leaves, start, end, k);
    SubProofSplits(m, leaves[start..end], complete, leaves[start..start + k], leaves[start + k..end]);
    if m <= k {
      var inner := Subproof(leaves, m, start, start + k, complete, out);
      var root := SubtreeRoot(leaves, start + k, end);
      extended := inner + [root];
    } else {
      var inner := Subproof(leaves, m - k, start + k, end, false, out);
      var root := SubtreeRoot(leaves, start, start + k);
      extended := inner + [root];
    }
  }

  lemma SubProofOfWhole(leaves: seq<Digest>, complete: bool)
    requires leaves != []
    ensures SubProof(|leaves|, leaves, complete) == if complete then [] else [Root(leaves)]
  {
  }

  method ProveConsistency(leaves: seq<Digest>, first: int, second: int) returns (ok: bool, path: seq<Digest>)
    ensures ok <==> 1 <= first <= second <= |leaves|
    ensures ok ==> path == SubProof(first, leaves[..second], true)
  {
    if first < 1 || first > second || second > |leaves| {
      return false, [];
    }
    path := Subproof(leaves, first, 0, second, true, []);
    assert leaves[0..second] == leaves[..second];
    ok := true;
  }

  // ---------- The proof, level by level ----------

  /** One unfolding of the recursive proof, with the two halves named. */
  lemma SubProofSplits(m: nat, leaves: seq<Digest>, complete: bool, left: seq<Digest>, right: seq<Digest>)
    requires 1 <= m < |leaves|
    requires left == leaves[..Split(|leaves|)] && right == leaves[Split(|leaves|)..]
    ensures SubProof(m, leaves, complete) ==
      if m <= |left| then SubProof(m, left, complete) + [Root(right)]
      else SubProof(m - |left|, right, false) + [Root(left)]
  {
  }

  /** An even old size only sees whole pairs. */
  lemma {:induction false} SubProofByLevels(m: nat, leaves: seq<Digest>, complete: bool)
    requires 2 <= m <= |leaves| && m % 2 == 0
    ensures SubProof(m, leaves, complete) == SubProof(m / 2, PairUp(leaves), complete)
    decreases |leaves|
  {
    hide Root, PairUp, Split;
    if m == |leaves| {
      RootByLevels(leaves);
    } else {
      hide SubProof;
      var left, right := leaves[..Split(|leaves|)], leaves[Split(|leaves|)..];
      SplitHalves(leaves, left, right);
      SubProofSplits(m, leaves, complete, left, right);
      SubProofSplits(m / 2, PairUp(leaves), complete, PairUp(left), PairUp(right));
      if m <= |left| {
        SubProofByLevels(m, left, complete);
        RootByLevels(right);
      } else {
        assert (m - |left|) / 2 == m / 2 - |left| / 2;
        SubProofByLevels(m - |left|, right, false);
        RootByLevels(left);
      }
    }
  }

  lemma SplitIsEvenOrOne(n: nat)
    requires n >= 2
    ensures 1 <= Split(n) < n && (Split(n) % 2 == 0 || n == 2)
  {
  }

  /** An odd old size leaves its last node on this level: the proof is that node, unless it
      is the whole old tree, followed by the node's inclusion path. */
  predicate OddProofShape(m: nat, leaves: seq<Digest>, complete: bool)
    requires 1 <= m <= |leaves|
  {
    SubProof(m, leaves, complete) == OldHead(m, leaves, complete) + Path(m - 1, leaves)
  }

  function OldHead(m: nat, leaves: seq<Digest>, complete: bool): seq<Digest>
    requires 1 <= m <= |leaves|
  {
    if complete && m == 1 then [] else [leaves[m - 1]]
  }

  lemma {:induction false} SubProofOfOdd(m: nat, leaves: seq<Digest>, complete: bool)
    requires 1 <= m <= |leaves| && m % 2 == 1 && (m < |leaves| || |leaves| == 1)
    ensures OddProofShape(m, leaves, complete)
    decreases |leaves|
  {
    hide *;
    if |leaves| == 1 {
      OddProofOfOne(leaves, complete);
    } else {
      SplitIsEvenOrOne(|leaves|);
      var left, right := leaves[..Split(|leaves|)], leaves[Split(|leaves|)..];
      if m <= |left| {
        SubProofOfOdd(m, left, complete);
        OddProofOfLeft(m, leaves, complete, left, right);
      } else {
        SubProofOfOdd(m - |left|, right, false);
        OddProofOfRight(m, leaves, complete, left, right);
      }
    }
  }

  lemma OddProofOfOne(leaves: seq<Digest>, complete: bool)
    requires |leaves| == 1
    ensures OddProofShape(1, leaves, complete)
  {
  }

  lemma OddProofOfLeft(m: nat, leaves: seq<Digest>, complete: bool, left: seq<Digest>, right: seq<Digest>)
    requires |leaves| > 1 && left == leaves[..Split(|leaves|)] && right == leaves[Split(|leaves|)..]
    requires 1 <= m <= |left| && OddProofShape(m, left, complete)
    ensures OddProofShape(m, leaves, complete)
  {
    hide Root, Path, SubProof, Split, OldHead;
    var head, path, last := OldHead(m, left, complete), Path(m - 1, left), [Root(right)];
    assert SubProof(m, leaves, complete) == head + path + last by {
      SubProofSplits(m, leaves, complete, left, right);
    }
    assert Path(m - 1, leaves) == path + last by {
      PathSplits(m - 1, leaves, left, right);
    }
    OldHeadInHalf(m, leaves, complete, left, right);
    ConcatAssoc(head, path, last);
  }

  lemma OddProofOfRight(m: nat, leaves: seq<Digest>, complete: bool, left: seq<Digest>, right: seq<Digest>)
    requires |leaves| > 1 && left == leaves[..Split(|leaves|)] && right == leaves[Split(|leaves|)..]
    requires |left| < m < |leaves| && OddProofShape(m - |left|, right, false)
    ensures OddProofShape(m, leaves, complete)
  {
    hide Root, Path, SubProof, Split, OldHead;
    var head, path, last := OldHead(m - |left|, right, false), Path(m - |left| - 1, right), [Root(left)];
    assert SubProof(m, leaves, complete) == head + path + last by {
      SubProofSplits(m, leaves, complete, left, right);
    }
    assert Path(m - 1, leaves) == path + last by {
      PathSplits(m - 1, leaves, left, right);
    }
    OldHeadInHalf(m, leaves, complete, left, right);
    ConcatAssoc(head, path, last);
  }

  lemma OldHeadInHalf(m: nat, leaves: seq<Digest>, complete: bool, left: seq<Digest>, right: seq<Digest>)
    requires leaves == left + right && left != [] && 1 <= m <= |leaves|
    ensures m <= |left| ==> OldHead(m, leaves, complete) == OldHead(m, left, complete)
    ensures m > |left| ==> OldHead(m, leaves, complete) == OldHead(m - |left|, right, false)
  {
  }

  lemma ConcatAssoc(a: seq<Digest>, b: seq<Digest>, c: seq<Digest>)
    ensures (a + b) + c == a + (b + c)
  {
  }

  // ---------- The verifier ----------

  /** Bitwise conjunction of two naturals. */
  function BitAnd(a: nat, b: nat): nat {
    if a == 0 || b == 0 then 0
    else 2 * BitAnd(a / 2, b / 2) + (if a % 2 == 1 && b % 2 == 1 then 1 else 0)
  }

  lemma {:induction false} BitAndSelf(a: nat)
    ensures BitAnd(a, a) == a
  {
    if a > 0 {
      BitAndSelf(a / 2);
    }
  }

  /** The test `n & (n - 1) == 0` recognises exactly the powers of two, at any width. */
  lemma {:induction false} PowerOfTwoTest(n: nat)
    requires n >= 1
    ensures BitAnd(n, n - 1) == 0 <==> IsPowerOfTwo(n)
  {
    if n > 1 {
      if n % 2 == 0 {
        assert (n - 1) / 2 == n / 2 - 1;
        PowerOfTwoTest(n / 2);
      } else {
        assert (n - 1) / 2 == n / 2;
        BitAndSelf(n / 2);
      }
    }
  }

  /** Shift both counters right while fn is odd. */
  function ShiftWhileOdd(fn: nat, sn: nat): (nat, nat) {
    if fn % 2 == 1 then ShiftWhileOdd(fn / 2, sn / 2) else (fn, sn)
  }

  /** The old tree's accumulator: it takes left siblings only. */
  function OldWalk(fn: nat, sn: nat, fr: Digest, path: seq<Digest>): Digest
    decreases |path|
  {
    if path == [] || sn == 0 then fr
    else if fn % 2 == 1 || fn == sn then
      var (fn', sn') := if fn % 2 == 0 then ShiftToOdd(fn, sn) else (fn, sn);
      OldWalk(fn' / 2, sn' / 2, NodeDigest(path[0], fr), path[1..])
    else OldWalk(fn / 2, sn / 2, fr, path[1..])
  }

  predicate ConsistencyAccepted(firstRoot: HexText, secondRoot: HexText, first: int, second: int, path: seq<HexText>) {
    && SafeSize(first) && SafeSize(second) && first <= second
    && |path| <= MAX_CONSISTENCY_PATH
    && firstRoot.Hex? && secondRoot.Hex?
    && if first == second then path == [] && firstRoot == secondRoot
       else path != [] && AllHex(path) && RootsReached(firstRoot.digest, secondRoot.digest, first, second,
         (if IsPowerOfTwo(first) then [firstRoot.digest] else []) + Digests(path))
  }

  predicate RootsReached(firstRoot: Digest, secondRoot: Digest, first: nat, second: nat, path: seq<Digest>)
    requires 1 <= first < second && path != []
  {
    var (fn, sn) := ShiftWhileOdd(first - 1, second - 1);
    && Walk(fn, sn, path[0], path[1..]) == Some(secondRoot)
    && OldWalk(fn, sn, path[0], path[1..]) == firstRoot
  }

  method ShiftUntilEven(fn0: nat, sn0: nat) returns (fn: nat, sn: nat)
    ensures (fn, sn) == ShiftWhileOdd(fn0, sn0)
  {
    fn, sn := fn0, sn0;
    while fn % 2 == 1
      invariant ShiftWhileOdd(fn, sn) == ShiftWhileOdd(fn0, sn0)
      decreases fn
    {
      fn, sn := fn / 2, sn / 2;
    }
  }

  method VerifyConsistency(firstRoot: HexText, secondRoot: HexText, first: int, second: int, path: seq<HexText>)
    returns (accepted: bool)
    ensures accepted == ConsistencyAccepted(firstRoot, secondRoot, first, second, path)
  {
    if !SafeSize(first) || !SafeSize(second) || first > second || |path| > MAX_CONSISTENCY_PATH {
      return false;
    }
    if firstRoot.Malformed? || secondRoot.Malformed? {
      return false;
    }
    if first == second {
      return |path| == 0 && firstRoot.digest == secondRoot.digest;
    }
    if |path| == 0 || !AllHex(path) {
      return false;
    }
    var nodes := Digests(path);
    PowerOfTwoTest(first);
    if BitAnd(first, first - 1) == 0 {
      nodes := [firstRoot.digest] + nodes;
    }
    assert [] + nodes == nodes;
    accepted := ReachesRoots(firstRoot.digest, secondRoot.digest, first, second, nodes);
  }

  /** Steps 3 to 7 of section 2.1.4.2 of RFC 9162. */
  method ReachesRoots(firstRoot: Digest, secondRoot: Digest, first: nat, second: nat, path: seq<Digest>)
    returns (reached: bool)
    requires 1 <= first < second && path != []
    ensures reached == RootsReached(firstRoot, secondRoot, first, second, path)
  {
    var fn, sn := ShiftUntilEven(first - 1, second - 1);
    var fr, sr := path[0], path[0];
    ghost var new0, old0 := Walk(fn, sn, sr, path[1..]), OldWalk(fn, sn, fr, path[1..]);
    var i := 1;
    while i < |path|
      invariant 1 <= i <= |path|
      invariant Walk(fn, sn, sr, path[i..]) == new0
      invariant new0.Some? ==> OldWalk(fn, sn, fr, path[i..]) == old0
    {
      var c := path[i];
      if sn == 0 {
        return false;
      }
      if fn % 2 == 1 || fn == sn {
        fr, sr := NodeDigest(c, fr), NodeDigest(c, sr);
        if fn % 2 == 0 {
          fn, sn := ShiftUntilOdd(fn, sn);
        }
      } else {
        sr := NodeDigest(sr, c);
      }
      fn, sn := fn / 2, sn / 2;
      i := i + 1;
    }
    reached := fr == firstRoot && sr == secondRoot && sn == 0;
  }

  // ---------- What acceptance means ----------

  /** The old level beneath the node fn, with the old tree's own last node. */
  function OldLevel(fn: nat, level: seq<Digest>, fr: Digest): seq<Digest>
    requires fn < |level|
  {
    level[..fn] + [fr]
  }

  lemma OldLevelClimbs(fn: nat, level: seq<Digest>, fr: Digest)
    requires fn < |level|
    ensures Root(OldLevel(fn, level, fr)) ==
      Root(OldLevel(fn / 2, PairUp(level), if fn % 2 == 1 then NodeDigest(level[fn - 1], fr) else fr))
  {
    hide Root;
    RootByLevels(OldLevel(fn, level, fr));
    assert PairUp(OldLevel(fn, level, fr)) ==
      OldLevel(fn / 2, PairUp(level), if fn % 2 == 1 then NodeDigest(level[fn - 1], fr) else fr);
  }

  lemma OldWalkSkipsPromotion(fn: nat, fr: Digest, path: seq<Digest>)
    requires fn > 0 && fn % 2 == 0
    ensures OldWalk(fn, fn, fr, path) == OldWalk(fn / 2, fn / 2, fr, path)
  {
    assert ShiftToOdd(fn, fn) == ShiftToOdd(fn / 2, fn / 2);
    if path != [] && fn / 2 % 2 == 1 {
      assert ShiftToOdd(fn / 2, fn / 2) == (fn / 2, fn / 2);
    }
  }

  lemma OldWalkStep(fn: nat, sn: nat, fr: Digest, head: Digest, rest: seq<Digest>)
    requires fn <= sn && sn > 0 && (fn % 2 == 1 || fn < sn)
    ensures OldWalk(fn, sn, fr, [head] + rest) ==
      OldWalk(fn / 2, sn / 2, if fn % 2 == 1 then NodeDigest(head, fr) else fr, rest)
  {
    assert ([head] + rest)[1..] == rest;
  }

  /** Along a true path the old accumulator reaches the root of the old level. */
  predicate OldWalkDecides(fn: nat, level: seq<Digest>, fr: Digest)
    requires fn < |level|
  {
    OldWalk(fn, |level| - 1, fr, Path(fn, level)) == Root(OldLevel(fn, level, fr))
  }

  lemma {:induction false} OldWalkIsExact(fn: nat, level: seq<Digest>, fr: Digest)
    requires fn < |level|
    ensures OldWalkDecides(fn, level, fr)
    decreases |level|
  {
    hide *;
    if |level| == 1 {
      OldWalkOfOne(level, fr);
    } else if fn == |level| - 1 && fn % 2 == 0 {
      OldWalkIsExact(fn / 2, PairUp(level), fr);
      OldWalkPromoted(fn, level, fr);
    } else {
      var up := if fn % 2 == 1 then NodeDigest(level[fn - 1], fr) else fr;
      OldWalkIsExact(fn / 2, PairUp(level), up);
      OldWalkClimbs(fn, level, fr, up);
    }
  }

  lemma OldWalkOfOne(level: seq<Digest>, fr: Digest)
    requires |level| == 1
    ensures OldWalkDecides(0, level, fr)
  {
    assert OldLevel(0, level, fr) == [fr];
  }

  lemma OldWalkPromoted(fn: nat, level: seq<Digest>, fr: Digest)
    requires fn == |level| - 1 && fn > 0 && fn % 2 == 0
    requires OldWalkDecides(fn / 2, PairUp(level), fr)
    ensures OldWalkDecides(fn, level, fr)
  {
    hide Root, OldLevel, OldWalk, Path, PairUp;
    PathByLevels(fn, level);
    assert Path(fn, level) == Path(fn / 2, PairUp(level));
    OldLevelClimbs(fn, level, fr);
    OldWalkSkipsPromotion(fn, fr, Path(fn, level));
    assert fn / 2 == |PairUp(level)| - 1;
  }

  lemma OldWalkClimbs(fn: nat, level: seq<Digest>, fr: Digest, up: Digest)
    requires fn < |level| && |level| > 1 && (fn % 2 == 1 || fn + 1 < |level|)
    requires up == if fn % 2 == 1 then NodeDigest(level[fn - 1], fr) else fr
    requires OldWalkDecides(fn / 2, PairUp(level), up)
    ensures OldWalkDecides(fn, level, fr)
  {
    hide Root, OldLevel, OldWalk, Path, PairUp;
    PathByLevels(fn, level);
    OldLevelClimbs(fn, level, fr);
    assert Sibling(fn, level) == [Sibling(fn, level)[0]];
    OldWalkStep(fn, |level| - 1, fr, Sibling(fn, level)[0], Path(fn / 2, PairUp(level)));
    assert (|level| - 1) / 2 == |PairUp(level)| - 1;
  }

  /** The level on which the old tree's last node is a left child, with that node's index. */
  function Climb(fn: nat, level: seq<Digest>): (r: (nat, seq<Digest>))
    requires fn < |level|
    ensures r.0 < |r.1| && r.0 % 2 == 0
  {
    if fn % 2 == 1 then Climb(fn / 2, PairUp(level)) else (fn, level)
  }

  /** Climbing keeps both roots and the proof, and mirrors the verifier's first shift loop. */
  predicate ClimbKept(fn: nat, level: seq<Digest>, f: nat, top: seq<Digest>)
    requires fn < |level| && f < |top|
  {
    && ShiftWhileOdd(fn, |level| - 1) == (f, |top| - 1)
    && Root(top) == Root(level)
    && Root(top[..f + 1]) == Root(level[..fn + 1])
    && SubProof(fn + 1, level, true) == SubProof(f + 1, top, true)
    && (fn + 1 < |level| ==> f + 1 < |top|)
    && (f == 0 <==> IsPowerOfTwo(fn + 1))
  }

  lemma {:induction false} ClimbKeeps(fn: nat, level: seq<Digest>)
    requires fn < |level|
    ensures var (f, top) := Climb(fn, level); ClimbKept(fn, level, f, top)
    decreases fn
  {
    hide *;
    ClimbOnce(fn, level);
    if fn % 2 == 1 {
      ClimbKeeps(fn / 2, PairUp(level));
      var (f, top) := Climb(fn, level);
      ClimbKeepsOnce(fn, level, f, top);
    }
  }

  lemma ClimbOnce(fn: nat, level: seq<Digest>)
    requires fn < |level|
    ensures fn % 2 == 1 ==> Climb(fn, level) == Climb(fn / 2, PairUp(level))
    ensures fn % 2 == 0 ==> Climb(fn, level) == (fn, level) && ClimbKept(fn, level, fn, level)
  {
    hide Root, SubProof, PairUp;
  }

  lemma ClimbKeepsOnce(fn: nat, level: seq<Digest>, f: nat, top: seq<Digest>)
    requires fn < |level| && fn % 2 == 1 && f < |top|
    requires ClimbKept(fn / 2, PairUp(level), f, top)
    ensures ClimbKept(fn, level, f, top)
  {
    hide Root, SubProof, PairUp;
    RootByLevels(level);
    RootByLevels(level[..fn + 1]);
    PairUpOfParts(level, fn + 1);
    SubProofByLevels(fn + 1, level, true);
    assert (fn + 1) / 2 == fn / 2 + 1;
  }

  /** The honest proof for a strictly smaller old tree: the first node is left out exactly
      when the old size is a power of two, where it is the old root the verifier holds. */
  lemma HonestProofShape(m: nat, leaves: seq<Digest>)
    requires 1 <= m < |leaves|
    ensures
      var (f, top) := Climb(m - 1, leaves);
      && SubProof(m, leaves, true) == (if IsPowerOfTwo(m) then [] else [top[f]]) + Path(f, top)
      && (IsPowerOfTwo(m) ==> f == 0 && top[f] == Root(leaves[..m]))
  {
    hide *;
    var (f, top) := Climb(m - 1, leaves);
    ClimbKeeps(m - 1, leaves);
    ClimbedFacts(m, leaves, f, top);
    SubProofOfOdd(f + 1, top, true);
    ShapeOfHead(f, top);
  }

  lemma ClimbedFacts(m: nat, leaves: seq<Digest>, f: nat, top: seq<Digest>)
    requires 1 <= m < |leaves| && f < |top| && ClimbKept(m - 1, leaves, f, top)
    ensures f + 1 < |top| && (f == 0 <==> IsPowerOfTwo(m))
    ensures SubProof(m, leaves, true) == SubProof(f + 1, top, true)
    ensures ShiftWhileOdd(m - 1, |leaves| - 1) == (f, |top| - 1)
    ensures Root(top) == Root(leaves)
    ensures Root(top[..f + 1]) == Root(leaves[..m])
    ensures f == 0 ==> top[0] == Root(leaves[..m])
  {
    hide SubProof, ShiftWhileOdd, IsPowerOfTwo;
    if f == 0 {
      RootOfOne(top[..1]);
    }
  }

  lemma ShapeOfHead(f: nat, top: seq<Digest>)
    requires f < |top| && OddProofShape(f + 1, top, true)
    ensures SubProof(f + 1, top, true) == (if f == 0 then [] else [top[f]]) + Path(f, top)
  {
  }

  lemma RootOfOne(leaves: seq<Digest>)
    requires |leaves| == 1
    ensures Root(leaves) == leaves[0]
  {
  }

  // ---------- The theorems ----------

  /** The verifier's two accumulators against the true tree. */
  lemma RootsReachedExact(m: nat, leaves: seq<Digest>, r1: Digest, nodes: seq<Digest>)
    requires 1 <= m < |leaves| && nodes != []
    ensures
      var (f, top) := Climb(m - 1, leaves);
      RootsReached(r1, Root(leaves), m, |leaves|, nodes) <==>
        nodes == [top[f]] + Path(f, top) && r1 == Root(leaves[..m])
  {
    hide Root, SubProof, Path, Climb, IsPowerOfTwo, Walk, OldWalk, ShiftWhileOdd;
    var (f, top) := Climb(m - 1, leaves);
    ClimbKeeps(m - 1, leaves);
    ClimbedFacts(m, leaves, f, top);
    WalkIsExact(f, top, nodes[0], nodes[1..]);
    ConsIff(nodes, top[f], Path(f, top));
    OldWalkIsExact(f, top, top[f]);
    assert OldLevel(f, top, top[f]) == top[..f + 1];
  }

  /** Honest proofs stay far below the cap, so it never rejects one. */
  lemma HonestProofFits(m: nat, leaves: seq<Digest>)
    requires 1 <= m <= |leaves| <= MAX_SAFE_INTEGER
    ensures |SubProof(m, leaves, true)| <= 54 <= MAX_CONSISTENCY_PATH
  {
    hide SubProof, Root, Path, Climb, Split, PowerOfTwo, IsPowerOfTwo, PairUp;
    if m == |leaves| {
      SubProofOfWhole(leaves, true);
    } else {
      HonestProofShape(m, leaves);
      var (f, top) := Climb(m - 1, leaves);
      ClimbShrinks(m - 1, leaves);
      PowersUpTo53();
      PathIsShort(f, top, 53);
    }
  }

  lemma {:induction false} ClimbShrinks(fn: nat, level: seq<Digest>)
    requires fn < |level|
    ensures |Climb(fn, level).1| <= |level|
    decreases fn
  {
    if fn % 2 == 1 {
      ClimbShrinks(fn / 2, PairUp(level));
    }
  }

  /** Consistency is exact: with the later tree's leaves fixed, acceptance means precisely
      that the earlier root is the root of the first m leaves and the path is the prover's. */
  lemma ConsistencyExact(m: nat, leaves: seq<Digest>, r1: Digest, path: seq<HexText>)
    requires 1 <= m <= |leaves| <= MAX_SAFE_INTEGER
    ensures ConsistencyAccepted(Hex(r1), Hex(Root(leaves)), m, |leaves|, path) <==>
      r1 == Root(leaves[..m]) && AllHex(path) && Digests(path) == SubProof(m, leaves, true)
  {
    hide *;
    HonestProofFits(m, leaves);
    if m == |leaves| {
      assert leaves[..m] == leaves;
      EqualSizes(leaves, r1, path);
    } else if AllHex(path) {
      HonestProofShape(m, leaves);
      UnequalSizes(m, leaves, r1, path);
    } else {
      NeedsHex(m, leaves, r1, path);
    }
  }

  lemma EqualSizes(leaves: seq<Digest>, r1: Digest, path: seq<HexText>)
    requires 1 <= |leaves| <= MAX_SAFE_INTEGER
    ensures ConsistencyAccepted(Hex(r1), Hex(Root(leaves)), |leaves|, |leaves|, path) <==>
      r1 == Root(leaves) && AllHex(path) && Digests(path) == SubProof(|leaves|, leaves, true)
  {
    SubProofOfWhole(leaves, true);
  }

  lemma NeedsHex(m: nat, leaves: seq<Digest>, r1: Digest, path: seq<HexText>)
    requires 1 <= m < |leaves| && !AllHex(path)
    ensures !ConsistencyAccepted(Hex(r1), Hex(Root(leaves)), m, |leaves|, path)
  {
  }

  lemma UnequalSizes(m: nat, leaves: seq<Digest>, r1: Digest, path: seq<HexText>)
    requires 1 <= m < |leaves| <= MAX_SAFE_INTEGER && AllHex(path)
    requires |SubProof(m, leaves, true)| <= MAX_CONSISTENCY_PATH
    ensures ConsistencyAccepted(Hex(r1), Hex(Root(leaves)), m, |leaves|, path) <==>
      r1 == Root(leaves[..m]) && Digests(path) == SubProof(m, leaves, true)
  {
    hide Root, SubProof, Path, Climb, IsPowerOfTwo, RootsReached, Digests;
    var (f, top) := Climb(m - 1, leaves);
    HonestProofShape(m, leaves);
    ClimbKeeps(m - 1, leaves);
    PathIsNonEmpty(f, top);
    var given := Digests(path);
    var nodes := (if IsPowerOfTwo(m) then [r1] else []) + given;
    if nodes != [] {
      RootsReachedExact(m, leaves, r1, nodes);
    }
    if IsPowerOfTwo(m) {
      ConsIff(nodes, top[f], Path(f, top));
      assert nodes[1..] == given;
    } else {
      assert nodes == given;
    }
  }

  /** The larger root can only stand for lists whose first m leaves have the smaller root. */
  ghost predicate Extends(r1: Digest, m: nat, r2: Digest, n: nat) {
    && m <= n
    && forall leaves: seq<Digest> :: |leaves| == n && Root(leaves) == r2 ==> Root(leaves[..m]) == r1
  }

  /** Soundness: an accepted proof commits every list behind the later root to the earlier
      one, and an earlier list with the earlier root is a prefix of it. */
  lemma ConsistencySound(r1: Digest, r2: Digest, m: nat, n: nat, path: seq<HexText>)
    requires ConsistencyAccepted(Hex(r1), Hex(r2), m, n, path)
    ensures Extends(r1, m, r2, n)
    ensures forall early: seq<Digest>, late: seq<Digest> ::
      |early| == m && Root(early) == r1 && |late| == n && Root(late) == r2 ==> early <= late
  {
    hide *;
    ConsistencyBounds(r1, r2, m, n, path);
    forall leaves: seq<Digest> | |leaves| == n && Root(leaves) == r2
      ensures Root(leaves[..m]) == r1
    {
      ConsistencyExact(m, leaves, r1, path);
    }
    forall early: seq<Digest>, late: seq<Digest> |
      |early| == m && Root(early) == r1 && |late| == n && Root(late) == r2
      ensures early <= late
    {
      ConsistencyExact(m, late, r1, path);
      RootIsInjective(early, late[..m]);
    }
    ExtendsIntro(r1, m, r2, n);
  }

  lemma ConsistencyBounds(r1: Digest, r2: Digest, m: nat, n: nat, path: seq<HexText>)
    requires ConsistencyAccepted(Hex(r1), Hex(r2), m, n, path)
    ensures 1 <= m <= n <= MAX_SAFE_INTEGER
  {
  }

  lemma ExtendsIntro(r1: Digest, m: nat, r2: Digest, n: nat)
    requires m <= n
    requires forall leaves: seq<Digest> :: |leaves| == n && Root(leaves) == r2 ==> Root(leaves[..m]) == r1
    ensures Extends(r1, m, r2, n)
  {
  }

  lemma ExtendsTransitive(r1: Digest, m: nat, r2: Digest, n: nat, r3: Digest, k: nat)
    requires Extends(r1, m, r2, n) && Extends(r2, n, r3, k)
    ensures Extends(r1, m, r3, k)
  {
    hide Root;
    forall leaves: seq<Digest> | |leaves| == k && Root(leaves) == r3
      ensures Root(leaves[..m]) == r1
    {
      assert Root(leaves[..n]) == r2;
      assert leaves[..n][..m] == leaves[..m];
    }
  }

  lemma EmptyExtends(r2: Digest, n: nat)
    ensures Extends(EmptyTree, 0, r2, n)
  {
    forall leaves: seq<Digest> | |leaves| == n && Root(leaves) == r2
      ensures Root(leaves[..0]) == EmptyTree
    {
      assert leaves[..0] == [];
    }
  }

  lemma ExtendsItself(r: Digest, n: nat)
    ensures Extends(r, n, r, n)
  {
    forall leaves: seq<Digest> | |leaves| == n && Root(leaves) == r
      ensures Root(leaves[..n]) == r
    {
      assert leaves[..n] == leaves;
    }
  }
}

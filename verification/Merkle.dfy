/** The RFC 9162 Merkle tree: roots, provers and the leaf-free verifiers.

  SHA-256 is modelled by free constructors. `Unknown` stands for a digest with no known
  preimage, so an untrusted proof may carry any 32-byte string. Trees are built over
  pre-hashed leaves, and every theorem holds for leaf lists of arbitrary digests.
 */
module Merkle {
  import opened Prelude

  datatype Digest =
    | EmptyTree
    | LeafDigest(data: seq<bv8>)
    | NodeDigest(left: Digest, right: Digest)
    | Unknown(bits: nat)

  /** A hash as it arrives at the module boundary: 64 lowercase hex characters, or not. */
  datatype HexText = Malformed(text: string) | Hex(digest: Digest)

  const MAX_INCLUSION_PATH: nat := 64
  const MAX_CONSISTENCY_PATH: nat := 130

  predicate SafeSize(n: int) {
    1 <= n <= MAX_SAFE_INTEGER
  }

  // ---------- The split point ----------

  predicate IsPowerOfTwo(k: nat) {
    k == 1 || (k > 1 && k % 2 == 0 && IsPowerOfTwo(k / 2))
  }

  /** The largest power of two strictly below n, following the pairing of neighbours. */
  function Split(n: nat): (k: nat)
    requires n >= 2
    ensures 1 <= k < n <= 2 * k
    ensures n > 2 ==> k % 2 == 0
  {
    if n == 2 then 1 else 2 * Split((n + 1) / 2)
  }

  lemma {:induction false} SplitIsPower(n: nat)
    requires n >= 2
    ensures IsPowerOfTwo(Split(n))
  {
    if n > 2 {
      SplitIsPower((n + 1) / 2);
    }
  }

  lemma {:induction false} SplitIsUnique(n: nat, k: nat)
    requires n >= 2 && IsPowerOfTwo(k) && k < n <= 2 * k
    ensures k == Split(n)
  {
    if n > 2 {
      SplitIsUnique((n + 1) / 2, k / 2);
    }
  }

  method SplitPoint(n: nat) returns (k: nat)
    requires n >= 2
    ensures k == Split(n)
  {
    k := 1;
    while k * 2 < n
      invariant IsPowerOfTwo(k) && k < n
    {
      k := k * 2;
    }
    SplitIsUnique(n, k);
  }

  // ---------- Tree roots ----------

  /** MTH(D[n]) of section 2.1.1 of RFC 9162, over pre-hashed leaves. */
  function Root(leaves: seq<Digest>): Digest
    decreases |leaves|
  {
    if |leaves| == 0 then EmptyTree
    else if |leaves| == 1 then leaves[0]
    else
      var k := Split(|leaves|);
      NodeDigest(Root(leaves[..k]), Root(leaves[k..]))
  }

  method SubtreeRoot(leaves: seq<Digest>, start: nat, end: nat) returns (root: Digest)
    requires start <= end <= |leaves|
    ensures root == Root(leaves[start..end])
    decreases end - start
  {
    hide Root, Split;
    var n := end - start;
    RootUnfolds(leaves[start..end]);
    if n == 0 {
      return EmptyTree;
    }
    if n == 1 {
      return leaves[start];
    }
    var k := SplitPoint(n);
    SliceParts(leaves, start, end, k);
    var left := SubtreeRoot(leaves, start, start + k);
    var right := SubtreeRoot(leaves, start + k, end);
    root := NodeDigest(left, right);
  }

  lemma RootUnfolds(leaves: seq<Digest>)
    ensures |leaves| == 0 ==> Root(leaves) == EmptyTree
    ensures |leaves| == 1 ==> Root(leaves) == leaves[0]
    ensures |leaves| > 1 ==> Root(leaves) == NodeDigest(Root(leaves[..Split(|leaves|)]), Root(leaves[Split(|leaves|)..]))
  {
  }

  /** At a fixed size the root determines every leaf. */
  lemma {:induction false} RootIsInjective(a: seq<Digest>, b: seq<Digest>)
    requires |a| == |b| && Root(a) == Root(b)
    ensures a == b
    decreases |a|
  {
    if |a| > 1 {
      var k := Split(|a|);
      RootIsInjective(a[..k], b[..k]);
      RootIsInjective(a[k..], b[k..]);
      assert a == a[..k] + a[k..] && b == b[..k] + b[k..];
    }
  }

  // ---------- The level view: pair neighbours, promote an odd last node ----------

  function PairUp(level: seq<Digest>): (next: seq<Digest>)
    ensures |next| == (|level| + 1) / 2
  {
    seq((|level| + 1) / 2, i requires 0 <= i < (|level| + 1) / 2 =>
      if 2 * i + 1 < |level| then NodeDigest(level[2 * i], level[2 * i + 1]) else level[2 * i])
  }

  lemma PairUpOfParts(level: seq<Digest>, k: nat)
    requires k % 2 == 0 && k <= |level|
    ensures PairUp(level)[..k / 2] == PairUp(level[..k])
    ensures PairUp(level)[k / 2..] == PairUp(level[k..])
  {
    assert PairUp(level) == PairUp(level[..k]) + PairUp(level[k..]);
  }

  lemma SplitHalves(leaves: seq<Digest>, left: seq<Digest>, right: seq<Digest>)
    requires |leaves| > 2 && left == leaves[..Split(|leaves|)] && right == leaves[Split(|leaves|)..]
    ensures |left| % 2 == 0 && Split(|PairUp(leaves)|) == |left| / 2
    ensures PairUp(left) == PairUp(leaves)[..|left| / 2] && PairUp(right) == PairUp(leaves)[|left| / 2..]
  {
    PairUpOfParts(leaves, |left|);
  }

  /** The recursive split and the bottom-up pairing build the same tree. */
  lemma {:induction false} RootByLevels(leaves: seq<Digest>)
    ensures Root(leaves) == Root(PairUp(leaves))
    decreases |leaves|
  {
    if |leaves| > 2 {
      var k := Split(|leaves|);
      RootByLevels(leaves[..k]);
      RootByLevels(leaves[k..]);
      SplitHalves(leaves, leaves[..k], leaves[k..]);
    }
  }

  // ---------- Inclusion paths ----------

  /** PATH(m, D[n]) of section 2.1.3.1 of RFC 9162, leaf to root. */
  function Path(m: nat, leaves: seq<Digest>): seq<Digest>
    requires m < |leaves|
    decreases |leaves|
  {
    if |leaves| == 1 then []
    else
      var k := Split(|leaves|);
      if m < k then Path(m, leaves[..k]) + [Root(leaves[k..])]
      else Path(m - k, leaves[k..]) + [Root(leaves[..k])]
  }

  /** The sibling of node m on its own level, if it has one. */
  function Sibling(m: nat, level: seq<Digest>): seq<Digest>
    requires m < |level|
  {
    if m % 2 == 1 then [level[m - 1]]
    else if m + 1 < |level| then [level[m + 1]]
    else []
  }

  lemma SiblingInHalf(m: nat, leaves: seq<Digest>, k: nat)
    requires m < |leaves| && k % 2 == 0 && k <= |leaves|
    ensures m < k ==> Sibling(m, leaves) == Sibling(m, leaves[..k])
    ensures m >= k ==> Sibling(m, leaves) == Sibling(m - k, leaves[k..])
  {
    assert k == 2 * (k / 2);
    if m < k {
      assert m % 2 == 0 ==> m + 1 < k;
    } else {
      assert (m - k) % 2 == m % 2;
      assert m % 2 == 1 ==> m - 1 >= k;
    }
  }

  /** The path of a node is its sibling, then the path of its parent one level up. */
  predicate PathClimbs(m: nat, leaves: seq<Digest>)
    requires m < |leaves|
  {
    Path(m, leaves) == Sibling(m, leaves) + Path(m / 2, PairUp(leaves))
  }

  lemma {:induction false} PathByLevels(m: nat, leaves: seq<Digest>)
    requires m < |leaves|
    ensures PathClimbs(m, leaves)
    decreases |leaves|
  {
    if |leaves| > 2 {
      var k := Split(|leaves|);
      var left, right := leaves[..k], leaves[k..];
      if m < k {
        PathByLevels(m, left);
        PathClimbsLeft(m, leaves, left, right);
      } else {
        PathByLevels(m - k, right);
        PathClimbsRight(m, leaves, left, right);
      }
    } else if |leaves| == 1 {
      assert PairUp(leaves) == leaves;
    }
  }

  lemma PathClimbsLeft(m: nat, leaves: seq<Digest>, left: seq<Digest>, right: seq<Digest>)
    requires |leaves| > 2 && left == leaves[..Split(|leaves|)] && right == leaves[Split(|leaves|)..]
    requires m < |left| && PathClimbs(m, left)
    ensures PathClimbs(m, leaves)
  {
    hide Path, Root, Split, Sibling, PairUp;
    SplitHalves(leaves, left, right);
    var sibling, up, last := Sibling(m, leaves), Path(m / 2, PairUp(left)), [Root(right)];
    assert Path(m, leaves) == sibling + up + last by {
      PathSplits(m, leaves, left, right);
      SiblingInHalf(m, leaves, |left|);
    }
    assert Path(m / 2, PairUp(leaves)) == up + last by {
      PathSplits(m / 2, PairUp(leaves), PairUp(left), PairUp(right));
      RootByLevels(right);
    }
    assert sibling + up + last == sibling + (up + last);
  }

  lemma PathClimbsRight(m: nat, leaves: seq<Digest>, left: seq<Digest>, right: seq<Digest>)
    requires |leaves| > 2 && left == leaves[..Split(|leaves|)] && right == leaves[Split(|leaves|)..]
    requires |left| <= m < |leaves| && PathClimbs(m - |left|, right)
    ensures PathClimbs(m, leaves)
  {
    hide Path, Root, Split, Sibling, PairUp;
    SplitHalves(leaves, left, right);
    RightSibling(m, leaves, left, right);
    RightParent(m, leaves, left, right);
    var sibling, up, last := Sibling(m, leaves), Path((m - |left|) / 2, PairUp(right)), [Root(left)];
    assert sibling + up + last == sibling + (up + last);
  }

  lemma RightSibling(m: nat, leaves: seq<Digest>, left: seq<Digest>, right: seq<Digest>)
    requires |leaves| > 2 && left == leaves[..Split(|leaves|)] && right == leaves[Split(|leaves|)..]
    requires |left| % 2 == 0 && |left| <= m < |leaves| && PathClimbs(m - |left|, right)
    ensures Path(m, leaves) == Sibling(m, leaves) + Path((m - |left|) / 2, PairUp(right)) + [Root(left)]
  {
    hide Path, Root, Split, Sibling, PairUp;
    PathSplits(m, leaves, left, right);
    SiblingInHalf(m, leaves, |left|);
  }

  lemma RightParent(m: nat, leaves: seq<Digest>, left: seq<Digest>, right: seq<Digest>)
    requires |leaves| > 2 && left == leaves[..Split(|leaves|)] && right == leaves[Split(|leaves|)..]
    requires |left| % 2 == 0 && |left| <= m < |leaves|
    ensures Path(m / 2, PairUp(leaves)) == Path((m - |left|) / 2, PairUp(right)) + [Root(left)]
  {
    hide Path, Root, Split, Sibling, PairUp;
    SplitHalves(leaves, left, right);
    assert (m - |left|) / 2 == m / 2 - |PairUp(left)|;
    PathSplits(m / 2, PairUp(leaves), PairUp(left), PairUp(right));
    RootByLevels(left);
  }

  /** One unfolding of the recursive path, with the two halves named. */
  lemma PathSplits(m: nat, leaves: seq<Digest>, left: seq<Digest>, right: seq<Digest>)
    requires |leaves| >= 2 && m < |leaves|
    requires left == leaves[..Split(|leaves|)] && right == leaves[Split(|leaves|)..]
    ensures Path(m, leaves) ==
      if m < |left| then Path(m, left) + [Root(right)] else Path(m - |left|, right) + [Root(left)]
  {
  }

  /** Path lengths are logarithmic. */
  lemma {:induction false} PathIsShort(m: nat, leaves: seq<Digest>, levels: nat)
    requires m < |leaves| <= PowerOfTwo(levels)
    ensures |Path(m, leaves)| <= levels
    decreases |leaves|
  {
    if |leaves| > 1 {
      PathByLevels(m, leaves);
      PathIsShort(m / 2, PairUp(leaves), levels - 1);
    }
  }

  function PowerOfTwo(e: nat): (p: nat)
    ensures p >= 1
  {
    if e == 0 then 1 else 2 * PowerOfTwo(e - 1)
  }

  /** One turn of the prover's loop moves the split's sibling into the reversed tail. */
  lemma DescentStep(m: nat, segment: seq<Digest>, left: seq<Digest>, right: seq<Digest>, collected: seq<Digest>)
    requires |segment| >= 2 && m < |segment|
    requires left == segment[..Split(|segment|)] && right == segment[Split(|segment|)..]
    ensures Path(m, segment) + Reverse(collected) ==
      if m < |left| then Path(m, left) + Reverse(collected + [Root(right)])
      else Path(m - |left|, right) + Reverse(collected + [Root(left)])
  {
    hide *;
    PathSplits(m, segment, left, right);
    if m < |left| {
      MoveSibling(Path(m, left), Root(right), collected);
    } else {
      MoveSibling(Path(m - |left|, right), Root(left), collected);
    }
  }

  lemma MoveSibling(path: seq<Digest>, sibling: Digest, collected: seq<Digest>)
    ensures path + [sibling] + Reverse(collected) == path + Reverse(collected + [sibling])
  {
    ReverseSnoc(collected, sibling);
  }

  predicate Descended(leaves: seq<Digest>, start: nat, end: nat, m: nat, collected: seq<Digest>, goal: seq<Digest>)
    requires start < end <= |leaves| && m < end - start
  {
    goal == Path(m, leaves[start..end]) + Reverse(collected)
  }

  lemma DescentStarts(leaves: seq<Digest>, size: nat, m: nat, goal: seq<Digest>)
    requires m < size <= |leaves| && goal == Path(m, leaves[..size])
    ensures Descended(leaves, 0, size, m, [], goal)
  {
    assert leaves[0..size] == leaves[..size];
  }

  lemma DescentEnds(leaves: seq<Digest>, start: nat, end: nat, m: nat, collected: seq<Digest>, goal: seq<Digest>)
    requires start < end <= |leaves| && m < end - start && end - start == 1
    requires Descended(leaves, start, end, m, collected, goal)
    ensures goal == Reverse(collected)
  {
  }

  lemma SliceParts(leaves: seq<Digest>, start: nat, end: nat, k: nat)
    requires start <= end <= |leaves| && k <= end - start
    ensures leaves[start..end][..k] == leaves[start..start + k]
    ensures leaves[start..end][k..] == leaves[start + k..end]
  {
  }

  lemma DescendLeft(m: nat, leaves: seq<Digest>, start: nat, end: nat, sibling: Digest, collected: seq<Digest>, goal: seq<Digest>)
    requires start < end <= |leaves| && end - start > 1 && m < Split(end - start)
    requires Descended(leaves, start, end, m, collected, goal)
    requires sibling == Root(leaves[start + Split(end - start)..end])
    ensures Descended(leaves, start, start + Split(end - start), m, collected + [sibling], goal)
  {
    hide Path, Root, Reverse, Split;
    var k := Split(end - start);
    SliceParts(leaves, start, end, k);
    DescentStep(m, leaves[start..end], leaves[start..start + k], leaves[start + k..end], collected);
  }

  lemma DescendRight(m: nat, leaves: seq<Digest>, start: nat, end: nat, sibling: Digest, collected: seq<Digest>, goal: seq<Digest>)
    requires start < end <= |leaves| && end - start > 1 && Split(end - start) <= m < end - start
    requires Descended(leaves, start, end, m, collected, goal)
    requires sibling == Root(leaves[start..start + Split(end - start)])
    ensures Descended(leaves, start + Split(end - start), end, m - Split(end - start), collected + [sibling], goal)
  {
    hide Path, Root, Reverse, Split;
    var k := Split(end - start);
    SliceParts(leaves, start, end, k);
    DescentStep(m, leaves[start..end], leaves[start..start + k], leaves[start + k..end], collected);
  }

  /** The walk down from the root; siblings are collected on the way and reversed at the end. */
  method ProveInclusion(leaves: seq<Digest>, leafIndex: int, treeSize: int) returns (ok: bool, path: seq<Digest>)
    ensures ok <==> 1 <= treeSize <= |leaves| && 0 <= leafIndex < treeSize
    ensures ok ==> path == Path(leafIndex, leaves[..treeSize])
  {
    hide *;
    path := [];
    if treeSize < 1 || treeSize > |leaves| || leafIndex < 0 || leafIndex >= treeSize {
      return false, [];
    }
    var start, end, m := 0, treeSize, leafIndex;
    var collected: seq<Digest> := [];
    ghost var goal := Path(leafIndex, leaves[..treeSize]);
    DescentStarts(leaves, treeSize, m, goal);
    while end - start > 1
      invariant 0 <= start < end <= treeSize && 0 <= m < end - start
      invariant Descended(leaves, start, end, m, collected, goal)
      decreases end - start
    {
      var k := SplitPoint(end - start);
      if m < k {
        var sibling := SubtreeRoot(leaves, start + k, end);
        DescendLeft(m, leaves, start, end, sibling, collected, goal);
        collected, end := collected + [sibling], start + k;
      } else {
        var sibling := SubtreeRoot(leaves, start, start + k);
        DescendRight(m, leaves, start, end, sibling, collected, goal);
        collected, start, m := collected + [sibling], start + k, m - k;
      }
    }
    DescentEnds(leaves, start, end, m, collected, goal);
    return true, Reverse(collected);
  }

  function Reverse(s: seq<Digest>): (r: seq<Digest>)
    ensures |r| == |s|
  {
    if s == [] then [] else [s[|s| - 1]] + Reverse(s[..|s| - 1])
  }

  lemma ReverseSnoc(s: seq<Digest>, x: Digest)
    ensures Reverse(s + [x]) == [x] + Reverse(s)
  {
    assert (s + [x])[..|s|] == s;
  }

  // ---------- Inclusion verification ----------

  /** Shift both counters right until fn is odd or zero. */
  function ShiftToOdd(fn: nat, sn: nat): (r: (nat, nat))
    ensures r.0 <= fn && r.1 <= sn
    ensures r.0 == 0 || r.0 % 2 == 1
  {
    if fn % 2 == 0 && fn != 0 then ShiftToOdd(fn / 2, sn / 2) else (fn, sn)
  }

  method ShiftUntilOdd(fn0: nat, sn0: nat) returns (fn: nat, sn: nat)
    ensures (fn, sn) == ShiftToOdd(fn0, sn0)
  {
    fn, sn := fn0, sn0;
    while fn % 2 == 0 && fn != 0
      invariant ShiftToOdd(fn, sn) == ShiftToOdd(fn0, sn0)
    {
      fn, sn := fn / 2, sn / 2;
    }
  }

  /** Steps 4 and 5 of section 2.1.3.2 of RFC 9162: the digest reached, if sn ends at zero. */
  function Walk(fn: nat, sn: nat, r: Digest, path: seq<Digest>): Option<Digest>
    decreases |path|
  {
    if path == [] then (if sn == 0 then Some(r) else None)
    else if sn == 0 then None
    else if fn % 2 == 1 || fn == sn then
      var (fn', sn') := if fn % 2 == 0 then ShiftToOdd(fn, sn) else (fn, sn);
      Walk(fn' / 2, sn' / 2, NodeDigest(path[0], r), path[1..])
    else Walk(fn / 2, sn / 2, NodeDigest(r, path[0]), path[1..])
  }

  /** A promoted last node takes no sibling: the walk ignores its level. */
  lemma WalkSkipsPromotion(fn: nat, r: Digest, path: seq<Digest>)
    requires fn > 0 && fn % 2 == 0
    ensures Walk(fn, fn, r, path) == Walk(fn / 2, fn / 2, r, path)
  {
    assert ShiftToOdd(fn, fn) == ShiftToOdd(fn / 2, fn / 2);
    if path != [] && fn / 2 % 2 == 1 {
      assert ShiftToOdd(fn / 2, fn / 2) == (fn / 2, fn / 2);
    }
  }

  /** One step of the walk where a sibling exists: the node and its path entry are both forced. */
  lemma WalkStep(fn: nat, sn: nat, r: Digest, path: seq<Digest>)
    requires fn <= sn && sn > 0 && (fn % 2 == 1 || fn < sn) && path != []
    ensures Walk(fn, sn, r, path) == Walk(fn / 2, sn / 2,
      if fn % 2 == 1 then NodeDigest(path[0], r) else NodeDigest(r, path[0]), path[1..])
  {
  }

  lemma ConsIff(path: seq<Digest>, head: Digest, tail: seq<Digest>)
    ensures path == [head] + tail <==> path != [] && path[0] == head && path[1..] == tail
  {
    if path != [] {
      assert path == [path[0]] + path[1..];
    }
  }

  /** Reaching the root of a level from node fn takes the true node and its true path. */
  predicate WalkDecides(fn: nat, level: seq<Digest>, r: Digest, path: seq<Digest>)
    requires fn < |level|
  {
    Walk(fn, |level| - 1, r, path) == Some(Root(level)) <==> r == level[fn] && path == Path(fn, level)
  }

  lemma {:induction false} WalkIsExact(fn: nat, level: seq<Digest>, r: Digest, path: seq<Digest>)
    requires fn < |level|
    ensures WalkDecides(fn, level, r, path)
    decreases |level|
  {
    if |level| > 1 {
      if fn == |level| - 1 && fn % 2 == 0 {
        WalkIsExact(fn / 2, PairUp(level), r, path);
        WalkPromoted(fn, level, r, path);
      } else if path == [] {
        PathIsNonEmpty(fn, level);
      } else {
        var up := if fn % 2 == 1 then NodeDigest(path[0], r) else NodeDigest(r, path[0]);
        WalkIsExact(fn / 2, PairUp(level), up, path[1..]);
        WalkExactStep(fn, level, r, path, up);
      }
    }
  }

  lemma PathIsNonEmpty(fn: nat, level: seq<Digest>)
    requires fn < |level| && |level| > 1
    ensures Path(fn, level) != []
  {
  }

  lemma WalkPromoted(fn: nat, level: seq<Digest>, r: Digest, path: seq<Digest>)
    requires fn == |level| - 1 && fn > 0 && fn % 2 == 0
    requires WalkDecides(fn / 2, PairUp(level), r, path)
    ensures WalkDecides(fn, level, r, path)
  {
    hide Path, Root, Walk, Split;
    WalkSkipsPromotion(fn, r, path);
    RootByLevels(level);
    PathByLevels(fn, level);
  }

  lemma WalkExactStep(fn: nat, level: seq<Digest>, r: Digest, path: seq<Digest>, up: Digest)
    requires fn < |level| && |level| > 1 && (fn % 2 == 1 || fn + 1 < |level|) && path != []
    requires up == if fn % 2 == 1 then NodeDigest(path[0], r) else NodeDigest(r, path[0])
    requires WalkDecides(fn / 2, PairUp(level), up, path[1..])
    ensures WalkDecides(fn, level, r, path)
  {
    hide Path, Root, Walk, PairUp, Split;
    var sibling, rest := Sibling(fn, level)[0], Path(fn / 2, PairUp(level));
    calc {
      Walk(fn, |level| - 1, r, path) == Some(Root(level));
    == { WalkStep(fn, |level| - 1, r, path); RootByLevels(level); }
      up == PairUp(level)[fn / 2] && path[1..] == rest;
    == { ParentIff(fn, level, r, path[0]); }
      r == level[fn] && path[0] == sibling && path[1..] == rest;
    == { ConsIff(path, sibling, rest); }
      r == level[fn] && path == [sibling] + rest;
    == { PathByLevels(fn, level); }
      r == level[fn] && path == Path(fn, level);
    }
  }

  /** Where a sibling exists, the combined node is right exactly when both parts are. */
  lemma ParentIff(fn: nat, level: seq<Digest>, r: Digest, p: Digest)
    requires fn < |level| && (fn % 2 == 1 || fn + 1 < |level|)
    ensures (if fn % 2 == 1 then NodeDigest(p, r) else NodeDigest(r, p)) == PairUp(level)[fn / 2]
      <==> r == level[fn] && [p] == Sibling(fn, level)
  {
  }

  predicate AllHex(path: seq<HexText>) {
    forall i :: 0 <= i < |path| ==> path[i].Hex?
  }

  function Digests(path: seq<HexText>): (ds: seq<Digest>)
    requires AllHex(path)
    ensures |ds| == |path| && forall i :: 0 <= i < |path| ==> ds[i] == path[i].digest
  {
    seq(|path|, i requires 0 <= i < |path| => path[i].digest)
  }

  /** What the inclusion verifier decides, as one condition over the walk. */
  predicate InclusionAccepted(leaf: HexText, leafIndex: int, treeSize: int, path: seq<HexText>, root: HexText) {
    && SafeSize(treeSize) && 0 <= leafIndex < treeSize
    && |path| <= MAX_INCLUSION_PATH
    && leaf.Hex? && AllHex(path) && root.Hex?
    && Walk(leafIndex, treeSize - 1, leaf.digest, Digests(path)) == Some(root.digest)
  }

  method VerifyInclusion(leaf: HexText, leafIndex: int, treeSize: int, path: seq<HexText>, root: HexText)
    returns (accepted: bool)
    ensures accepted == InclusionAccepted(leaf, leafIndex, treeSize, path, root)
  {
    if !SafeSize(treeSize) || leafIndex < 0 || leafIndex > MAX_SAFE_INTEGER {
      return false;
    }
    if |path| > MAX_INCLUSION_PATH || leafIndex >= treeSize {
      return false;
    }
    var fn: nat, sn: nat := leafIndex, treeSize - 1;
    if leaf.Malformed? {
      return false;
    }
    var r := leaf.digest;
    var i := 0;
    while i < |path|
      invariant 0 <= i <= |path| && AllHex(path[..i])
      invariant AllHex(path) ==> Walk(leafIndex, treeSize - 1, leaf.digest, Digests(path)) == Walk(fn, sn, r, Digests(path)[i..])
    {
      if path[i].Malformed? {
        return false;
      }
      var p := path[i].digest;
      if sn == 0 {
        return false;
      }
      if fn % 2 == 1 || fn == sn {
        r := NodeDigest(p, r);
        if fn % 2 == 0 {
          fn, sn := ShiftUntilOdd(fn, sn);
        }
      } else {
        r := NodeDigest(r, p);
      }
      fn, sn := fn / 2, sn / 2;
      i := i + 1;
    }
    accepted := sn == 0 && Hex(r) == root;
  }

  /** Inclusion is exact: against the true root, the verifier accepts precisely the leaf at
      the claimed index with the prover's path. The size cap never rejects an honest proof. */
  lemma InclusionExact(leaves: seq<Digest>, leaf: Digest, m: nat, path: seq<HexText>)
    requires m < |leaves| <= MAX_SAFE_INTEGER
    ensures InclusionAccepted(Hex(leaf), m, |leaves|, path, Hex(Root(leaves)))
      <==> AllHex(path) && leaf == leaves[m] && Digests(path) == Path(m, leaves)
  {
    assert PowerOfTwo(53) == MAX_SAFE_INTEGER + 1 by {
      PowersUpTo53();
    }
    PathIsShort(m, leaves, 53);
    if AllHex(path) {
      WalkIsExact(m, leaves, leaf, Digests(path));
    }
  }

  lemma PowersUpTo53()
    ensures PowerOfTwo(53) == 0x20_0000_0000_0000
  {
    assert PowerOfTwo(10) == 1024;
    PowerSum(10, 10);
    PowerSum(20, 20);
    PowerSum(40, 10);
    PowerSum(50, 3);
  }

  lemma {:induction false} PowerSum(a: nat, b: nat)
    ensures PowerOfTwo(a + b) == PowerOfTwo(a) * PowerOfTwo(b)
  {
    if a > 0 {
      PowerSum(a - 1, b);
      assert 2 * (PowerOfTwo(a - 1) * PowerOfTwo(b)) == 2 * PowerOfTwo(a - 1) * PowerOfTwo(b);
    }
  }
}

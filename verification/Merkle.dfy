/** Binary hash trees over a level of nodes, addressed by height and global index.

    `NodeHash` is the tweakable hash of one tree with everything but the position and the two children
    fixed; the WOTS subtrees of the hypertree and the FORS trees are two instances of it. */
module Merkle {
  import opened Bits

  /** A tweakable hash: (height of the result, its index at that height, left child, right child) */
  type NodeHash<!T> = (nat, nat, T, T) -> T

  /** The first `n` nodes of the level above `level`, */
  function ParentsPrefix<T>(hash: NodeHash<T>, height: nat, level: seq<T>, n: nat): (r: seq<T>)
    requires 2 * n <= |level|
    ensures |r| == n
  {
    if n == 0 then [] else (
      ParentsPrefix(hash, height, level, n - 1)
      + [hash(height + 1, n - 1, level[2 * n - 2], level[2 * n - 1])]
    )
  }

  /** The level above `level`. */
  function Parents<T>(hash: NodeHash<T>, height: nat, level: seq<T>): (r: seq<T>)
    ensures |r| == |level| / 2
  {
    ParentsPrefix(hash, height, level, |level| / 2)
  }

  lemma {:induction false} ParentsPrefixAt<T>(hash: NodeHash<T>, height: nat, level: seq<T>, n: nat, p: nat)
    requires 2 * n <= |level| && p < n
    ensures ParentsPrefix(hash, height, level, n)[p]
         == hash(height + 1, p, level[2 * p], level[2 * p + 1])
  {
    if p < n - 1 { ParentsPrefixAt(hash, height, level, n - 1, p); }
  }

  lemma ParentAt<T>(hash: NodeHash<T>, height: nat, level: seq<T>, p: nat)
    requires p < |level| / 2
    ensures Parents(hash, height, level)[p] == hash(height + 1, p, level[2 * p], level[2 * p + 1])
  {
    ParentsPrefixAt(hash, height, level, |level| / 2, p);
  }

  /** The level reached after `m` reductions of a level at `height`. */
  function Level<T>(hash: NodeHash<T>, height: nat, nodes: seq<T>, m: nat): seq<T> {
    if m == 0 then nodes
    else Parents(hash, height + m - 1, Level(hash, height, nodes, m - 1))
  }

  lemma {:induction false} LevelLength<T>(hash: NodeHash<T>, height: nat, nodes: seq<T>, n: nat, m: nat)
    requires |nodes| == Pow2(n) && m <= n
    ensures |Level(hash, height, nodes, m)| == Pow2(n - m)
  {
    if m != 0 { LevelLength(hash, height, nodes, n, m - 1); }
  }

  function Root<T>(hash: NodeHash<T>, height: nat, nodes: seq<T>, n: nat): T
    requires |nodes| == Pow2(n)
  {
    LevelLength(hash, height, nodes, n, n);
    Level(hash, height, nodes, n)[0]
  }

  /** The sibling, at level `m`, of the node that leaf `idx` reaches. */
  function SiblingAt<T>(hash: NodeHash<T>, height: nat, nodes: seq<T>, n: nat, idx: nat, m: nat): T
    requires |nodes| == Pow2(n) && idx < Pow2(n) && m < n
  {
    ShrBound(idx, m, n - m);
    LevelLength(hash, height, nodes, n, m);
    Level(hash, height, nodes, m)[Sibling(Shr(idx, m))]
  }

  /** The first `m` siblings on the way from leaf `idx` to the root, lowest first. */
  function AuthPath<T>(hash: NodeHash<T>, height: nat, nodes: seq<T>, n: nat, idx: nat, m: nat): (r: seq<T>)
    requires |nodes| == Pow2(n) && idx < Pow2(n) && m <= n
    ensures |r| == m
  {
    if m == 0 then []
    else AuthPath(hash, height, nodes, n, idx, m - 1) + [SiblingAt(hash, height, nodes, n, idx, m - 1)]
  }

  lemma {:induction false} AuthPathAt<T>(hash: NodeHash<T>, height: nat, nodes: seq<T>, n: nat, idx: nat, m: nat,
      j: nat)
    requires |nodes| == Pow2(n) && idx < Pow2(n) && j < m <= n
    ensures AuthPath(hash, height, nodes, n, idx, m)[j] == SiblingAt(hash, height, nodes, n, idx, j)
  {
    if j < m - 1 { AuthPathAt(hash, height, nodes, n, idx, m - 1, j); }
  }

  /** One round of the reduction: the parents of a level, left to right. */
  method NextLevel<T>(hash: NodeHash<T>, height: nat, level: seq<T>) returns (next: seq<T>)
    ensures next == Parents(hash, height, level)
  {
    next := [];
    for p := 0 to |level| / 2
      invariant next == ParentsPrefix(hash, height, level, p)
    {
      next := next + [hash(height + 1, p, level[2 * p], level[2 * p + 1])];
    }
  }

  /** The loop every tree builder runs: reduce the level pairwise, collecting the sibling on the way. */
  method ReduceLevels<T>(hash: NodeHash<T>, height: nat, nodes: seq<T>, n: nat, leafIdx: nat)
    returns (root: T, auth: seq<T>)
    requires |nodes| == Pow2(n) && leafIdx < Pow2(n)
    ensures root == Root(hash, height, nodes, n)
    ensures auth == AuthPath(hash, height, nodes, n, leafIdx, n)
  {
    ShrNone(leafIdx);
    hide Shr, Pow2, Parents;
    var level, idx := nodes, leafIdx;
    auth := [];
    for h := 0 to n
      invariant level == Level(hash, height, nodes, h)
      invariant idx == Shr(leafIdx, h)
      invariant auth == AuthPath(hash, height, nodes, n, leafIdx, h)
    {
      SiblingInLevel(hash, height, nodes, n, leafIdx, h);
      auth := auth + [level[Xor(idx, 1)]];
      level := NextLevel(hash, height + h, level);
      idx := Shr(idx, 1);
      ShrAdd(leafIdx, h, 1);
    }
    LevelLength(hash, height, nodes, n, n);
    root := level[0];
  }

  lemma SiblingInLevel<T>(hash: NodeHash<T>, height: nat, nodes: seq<T>, n: nat, idx: nat, m: nat)
    requires |nodes| == Pow2(n) && idx < Pow2(n) && m < n
    ensures Xor(Shr(idx, m), 1) < |Level(hash, height, nodes, m)|
    ensures SiblingAt(hash, height, nodes, n, idx, m) == Level(hash, height, nodes, m)[Xor(Shr(idx, m), 1)]
  {
    hide Shr, Xor, Pow2;
    XorOne(Shr(idx, m));
    ShrBound(idx, m, n - m);
    LevelLength(hash, height, nodes, n, m);
    Pow2Even(n - m);
  }

  /** One step of the verifier's climb: the index parity says on which side the sibling goes. */
  function Join<T>(hash: NodeHash<T>, height: nat, idx: nat, node: T, sibling: T): T {
    if idx % 2 == 1 then hash(height + 1, idx / 2, sibling, node) else hash(height + 1, idx / 2, node, sibling)
  }

  /** What a verifier computes: fold a node at index `idx` with the first `m` siblings of a path. */
  function Climb<T>(hash: NodeHash<T>, height: nat, idx: nat, node: T, path: seq<T>, m: nat): T
    requires m <= |path|
  {
    if m == 0 then node
    else Join(hash, height + m - 1, Shr(idx, m - 1), Climb(hash, height, idx, node, path, m - 1), path[m - 1])
  }

  lemma JoinIsParent<T>(hash: NodeHash<T>, height: nat, level: seq<T>, at: nat)
    requires at < |level| && |level| % 2 == 0
    ensures Join(hash, height, at, level[at], level[Sibling(at)]) == Parents(hash, height, level)[at / 2]
  {
    ParentAt(hash, height, level, at / 2);
  }

  /** After `m` steps along its authentication path a leaf has climbed to its ancestor at level `m`. */
  lemma {:induction false} ClimbFollowsLevels<T>(hash: NodeHash<T>, height: nat, nodes: seq<T>, n: nat, idx: nat,
      m: nat)
    requires |nodes| == Pow2(n) && idx < Pow2(n) && m <= n
    ensures Shr(idx, m) < |Level(hash, height, nodes, m)|
    ensures Climb(hash, height, idx, nodes[idx], AuthPath(hash, height, nodes, n, idx, n), m)
         == Level(hash, height, nodes, m)[Shr(idx, m)]
  {
    hide Pow2, Shr, Join, Parents, SiblingAt, Sibling, AuthPath;
    ShrNone(idx);
    assert Shr(idx, m) < |Level(hash, height, nodes, m)| by {
      ShrBound(idx, m, n - m);
      LevelLength(hash, height, nodes, n, m);
    }
    if m != 0 {
      var level, at := Level(hash, height, nodes, m - 1), Shr(idx, m - 1);
      ClimbFollowsLevels(hash, height, nodes, n, idx, m - 1);
      assert |level| % 2 == 0 by { LevelLength(hash, height, nodes, n, m - 1); Pow2Even(n - m + 1); }
      assert at / 2 == Shr(idx, m) by { ShrSucc(idx, m - 1); }
      AuthPathAt(hash, height, nodes, n, idx, n, m - 1);
      SiblingIs(hash, height, nodes, n, idx, m - 1);
      JoinIsParent(hash, height + m - 1, level, at);
    }
  }

  lemma SiblingIs<T>(hash: NodeHash<T>, height: nat, nodes: seq<T>, n: nat, idx: nat, m: nat)
    requires |nodes| == Pow2(n) && idx < Pow2(n) && m < n
    ensures Sibling(Shr(idx, m)) < |Level(hash, height, nodes, m)|
    ensures SiblingAt(hash, height, nodes, n, idx, m) == Level(hash, height, nodes, m)[Sibling(Shr(idx, m))]
  {
    hide Shr, Pow2, Level;
    ShrBound(idx, m, n - m);
    LevelLength(hash, height, nodes, n, m);
    Pow2Even(n - m);
  }

  /** Every leaf climbs to the root along its authentication path. */
  lemma ClimbReachesRoot<T>(hash: NodeHash<T>, height: nat, nodes: seq<T>, n: nat, idx: nat)
    requires |nodes| == Pow2(n) && idx < Pow2(n)
    ensures Climb(hash, height, idx, nodes[idx], AuthPath(hash, height, nodes, n, idx, n), n)
         == Root(hash, height, nodes, n)
  {
    ClimbFollowsLevels(hash, height, nodes, n, idx, n);
    LevelLength(hash, height, nodes, n, n);
  }

  // ---------------------------------------------------------------- what an accepted climb says

  /** At step `h` of a climb, the hash of the two nodes that are joined gives away both of them. */
  ghost predicate JoinBinds<T>(hash: NodeHash<T>, nodes: seq<T>, n: nat, idx: nat, leaf: T, path: seq<T>, h: nat)
    requires |nodes| == Pow2(n) && idx < Pow2(n) && |path| == n && h < n
  {
    ClimbStaysInside(hash, nodes, n, idx, h);
    var at, level := Shr(idx, h), Level(hash, 0, nodes, h);
    var mine, theirs := Climb(hash, 0, idx, leaf, path, h), level[at];
    Join(hash, h, at, mine, path[h]) == Join(hash, h, at, theirs, level[Sibling(at)]) ==>
      mine == theirs && path[h] == level[Sibling(at)]
  }

  lemma ClimbStaysInside<T>(hash: NodeHash<T>, nodes: seq<T>, n: nat, idx: nat, h: nat)
    requires |nodes| == Pow2(n) && idx < Pow2(n) && h <= n
    ensures Shr(idx, h) < |Level(hash, 0, nodes, h)|
    ensures h < n ==> Sibling(Shr(idx, h)) < |Level(hash, 0, nodes, h)| && |Level(hash, 0, nodes, h)| % 2 == 0
  {
    hide Shr, Pow2, Level, Sibling;
    ShrBound(idx, h, n - h);
    LevelLength(hash, 0, nodes, n, h);
    if h < n {
      Pow2Even(n - h);
      SiblingIs(hash, 0, nodes, n, idx, h);
    }
  }

  /** A climb that arrives at the node the tree has there came from the tree's leaf along the tree's own path, if no
      join on the way has two preimages. */
  lemma {:induction false} ClimbCameFromLeaf<T>(hash: NodeHash<T>, nodes: seq<T>, n: nat, idx: nat, leaf: T,
      path: seq<T>, m: nat)
    requires |nodes| == Pow2(n) && idx < Pow2(n) && |path| == n && m <= n
    requires Shr(idx, m) < |Level(hash, 0, nodes, m)|
    requires Climb(hash, 0, idx, leaf, path, m) == Level(hash, 0, nodes, m)[Shr(idx, m)]
    requires forall h :: 0 <= h < m ==> JoinBinds(hash, nodes, n, idx, leaf, path, h)
    ensures leaf == nodes[idx] && path[..m] == AuthPath(hash, 0, nodes, n, idx, m)
  {
    hide Pow2, Shr, Join, Parents, SiblingAt, Sibling;
    if m == 0 {
      ShrNone(idx);
    } else {
      var h := m - 1;
      ClimbStaysInside(hash, nodes, n, idx, h);
      var at, level := Shr(idx, h), Level(hash, 0, nodes, h);
      assert at / 2 == Shr(idx, m) by { ShrSucc(idx, h); }
      JoinIsParent(hash, h, level, at);
      assert JoinBinds(hash, nodes, n, idx, leaf, path, h);
      SiblingIs(hash, 0, nodes, n, idx, h);
      ClimbCameFromLeaf(hash, nodes, n, idx, leaf, path, h);
      assert path[..m] == path[..h] + [path[h]];
    }
  }

  /** A tree continued from one of its own levels is the same tree. */
  lemma {:induction false} LevelsCompose<T>(hash: NodeHash<T>, height: nat, nodes: seq<T>, m: nat, j: nat)
    ensures Level(hash, height + m, Level(hash, height, nodes, m), j) == Level(hash, height, nodes, m + j)
  {
    hide Parents;
    if j != 0 {
      LevelsCompose(hash, height, nodes, m, j - 1);
    }
  }

  /** `local` is the hash of block `s` of a tree cut at height `top`: the block numbers its nodes from 0,
      and `local` hashes each one under its index in the whole tree. */
  ghost predicate IsBlockHash<T(!new)>(hash: NodeHash<T>, local: NodeHash<T>, top: nat, s: nat) {
    forall h: nat, p: nat, l: T, r: T :: h <= top ==> local(h, p, l, r) == hash(h, Shl(s, top - h) + p, l, r)
  }

  /** Block number `s` of `2^n` nodes of a level. */
  function Block<T>(level: seq<T>, n: nat, s: nat): (r: seq<T>)
    requires Shl(s, n) + Pow2(n) <= |level|
    ensures |r| == Pow2(n)
  {
    level[Shl(s, n)..Shl(s, n) + Pow2(n)]
  }

  /** Going up one level and cutting out a slice commute. */
  lemma ParentsOfSlice<T(!new)>(hash: NodeHash<T>, local: NodeHash<T>, height: nat, up: nat, level: seq<T>, o: nat,
      n: nat)
    requires 2 * o + 2 * n <= |level| && up == height + 1
    requires forall p: nat, l: T, r: T :: local(up, p, l, r) == hash(up, o + p, l, r)
    ensures Parents(hash, height, level)[o..o + n] == Parents(local, height, level[2 * o..2 * o + 2 * n])
  {
    var above, slice := Parents(hash, height, level), level[2 * o..2 * o + 2 * n];
    forall p | 0 <= p < n ensures above[o..o + n][p] == Parents(local, height, slice)[p] {
      ParentAt(hash, height, level, o + p);
      ParentAt(local, height, slice, p);
      assert slice[2 * p] == level[2 * o + 2 * p] && slice[2 * p + 1] == level[2 * o + 2 * p + 1];
    }
  }

  lemma BlockParents<T(!new)>(hash: NodeHash<T>, local: NodeHash<T>, height: nat, level: seq<T>, n: nat, s: nat)
    requires n > 0 && Shl(s, n) + Pow2(n) <= |level|
    requires IsBlockHash(hash, local, height + n, s)
    ensures Shl(s, n - 1) + Pow2(n - 1) <= |level| / 2
    ensures Parents(local, height, Block(level, n, s)) == Block(Parents(hash, height, level), n - 1, s)
  {
    ShlEven(s, n);
    Pow2Even(n);
    hide Pow2, Shl, Parents;
    ParentsOfSlice(hash, local, height, height + 1, level, Shl(s, n - 1), Pow2(n - 1));
  }

  /** Building a block on its own yields a block of every level of the whole tree. */
  lemma {:induction false} BlockLevels<T(!new)>(hash: NodeHash<T>, local: NodeHash<T>, height: nat, nodes: seq<T>,
      n: nat, s: nat, m: nat)
    requires Shl(s, n + m) + Pow2(n + m) <= |nodes|
    requires IsBlockHash(hash, local, height + n + m, s)
    ensures Shl(s, n) + Pow2(n) <= |Level(hash, height, nodes, m)|
    ensures Level(local, height, Block(nodes, n + m, s), m) == Block(Level(hash, height, nodes, m), n, s)
    decreases m
  {
    hide Pow2, Shl, Parents;
    if m != 0 {
      BlockLevels(hash, local, height, nodes, n + 1, s, m - 1);
      BlockParents(hash, local, height + m - 1, Level(hash, height, nodes, m - 1), n + 1, s);
    }
  }

  /** The roots of the blocks of height `sh` are level `sh` of the tree. */
  lemma BlockRootAt<T(!new)>(hash: NodeHash<T>, local: NodeHash<T>, nodes: seq<T>, sh: nat, t: nat, s: nat)
    requires |nodes| == Pow2(sh + t) && s < Pow2(t) && IsBlockHash(hash, local, sh, s)
    ensures Shl(s, sh) + Pow2(sh) <= |nodes| && s < |Level(hash, 0, nodes, sh)|
    ensures Root(local, 0, Block(nodes, sh, s), sh) == Level(hash, 0, nodes, sh)[s]
  {
    ShlBound(s, sh, t);
    BlockLevels(hash, local, 0, nodes, 0, s, sh);
  }

  /** A tree recombined from the nodes of its level `sh` has the same root. */
  lemma RootFromLevel<T>(hash: NodeHash<T>, nodes: seq<T>, sh: nat, t: nat)
    requires |nodes| == Pow2(sh + t)
    ensures |Level(hash, 0, nodes, sh)| == Pow2(t)
    ensures Root(hash, sh, Level(hash, 0, nodes, sh), t) == Root(hash, 0, nodes, sh + t)
  {
    LevelLength(hash, 0, nodes, sh + t, sh);
    LevelsCompose(hash, 0, nodes, sh, t);
  }

  lemma SiblingShifted(half: nat, x: nat)
    ensures Sibling(2 * half + x) == 2 * half + Sibling(x)
  {
  }

  lemma {:induction false} ShrOfSplit(idx: nat, n: nat, m: nat)
    ensures Shr(idx, m) == Shl(Shr(idx, n + m), n) + Shr(Low(idx, n + m), m)
  {
    if m == 0 {
      ShrLow(idx, n);
    } else {
      ShrOfSplit(idx / 2, n, m - 1);
    }
  }

  /** Inside the leaf's block the siblings are those of the whole tree. */
  lemma SiblingInBlock<T(!new)>(hash: NodeHash<T>, local: NodeHash<T>, nodes: seq<T>, sh: nat, t: nat, idx: nat, m: nat)
    requires |nodes| == Pow2(sh + t) && idx < Pow2(sh + t) && m < sh && IsBlockHash(hash, local, sh, Shr(idx, sh))
    ensures Shr(idx, sh) < Pow2(t) && Shl(Shr(idx, sh), sh) + Pow2(sh) <= |nodes|
    ensures SiblingAt(local, 0, Block(nodes, sh, Shr(idx, sh)), sh, Low(idx, sh), m)
         == SiblingAt(hash, 0, nodes, sh + t, idx, m)
  {
    hide Pow2, Shl, Shr, Low, Level;
    var s, n, l := Shr(idx, sh), sh - m, Shr(Low(idx, sh), m);
    ShrBound(idx, sh, t);
    ShlBound(s, sh, t);
    BlockLevels(hash, local, 0, nodes, n, s, m);
    ShrBound(Low(idx, sh), m, n);
    ShrOfSplit(idx, n, m);
    ShlEven(s, n);
    Pow2Even(n);
    SiblingShifted(Shl(s, n - 1), l);
    assert Block(Level(hash, 0, nodes, m), n, s)[Sibling(l)] == Level(hash, 0, nodes, m)[Sibling(Shr(idx, m))];
  }

  /** Above the blocks the siblings are those of the tree over the block roots. */
  lemma SiblingAboveBlocks<T>(hash: NodeHash<T>, nodes: seq<T>, sh: nat, t: nat, idx: nat, m: nat)
    requires |nodes| == Pow2(sh + t) && idx < Pow2(sh + t) && m < t
    ensures Shr(idx, sh) < Pow2(t) == |Level(hash, 0, nodes, sh)|
    ensures SiblingAt(hash, sh, Level(hash, 0, nodes, sh), t, Shr(idx, sh), m)
         == SiblingAt(hash, 0, nodes, sh + t, idx, sh + m)
  {
    ShrBound(idx, sh, t);
    LevelLength(hash, 0, nodes, sh + t, sh);
    ShrAdd(idx, sh, m);
    LevelsCompose(hash, 0, nodes, sh, m);
  }

  /** The authentication path is the path inside the leaf's block followed by the path of the block. */
  lemma SplitAuthPath<T(!new)>(hash: NodeHash<T>, local: NodeHash<T>, nodes: seq<T>, sh: nat, t: nat, idx: nat)
    requires |nodes| == Pow2(sh + t) && idx < Pow2(sh + t) && IsBlockHash(hash, local, sh, Shr(idx, sh))
    ensures Shr(idx, sh) < Pow2(t) == |Level(hash, 0, nodes, sh)|
    ensures Shl(Shr(idx, sh), sh) + Pow2(sh) <= |nodes|
    ensures AuthPath(hash, 0, nodes, sh + t, idx, sh + t)
         == AuthPath(local, 0, Block(nodes, sh, Shr(idx, sh)), sh, Low(idx, sh), sh)
          + AuthPath(hash, sh, Level(hash, 0, nodes, sh), t, Shr(idx, sh), t)
  {
    hide AuthPath, SiblingAt, Level, Pow2, Shl, Shr, Low;
    ShrBound(idx, sh, t);
    ShlBound(Shr(idx, sh), sh, t);
    LevelLength(hash, 0, nodes, sh + t, sh);
    var whole := AuthPath(hash, 0, nodes, sh + t, idx, sh + t);
    var below := AuthPath(local, 0, Block(nodes, sh, Shr(idx, sh)), sh, Low(idx, sh), sh);
    var above := AuthPath(hash, sh, Level(hash, 0, nodes, sh), t, Shr(idx, sh), t);
    forall m | 0 <= m < sh + t ensures whole[m] == (below + above)[m] {
      AuthPathAt(hash, 0, nodes, sh + t, idx, sh + t, m);
      if m < sh {
        SiblingInBlock(hash, local, nodes, sh, t, idx, m);
        AuthPathAt(local, 0, Block(nodes, sh, Shr(idx, sh)), sh, Low(idx, sh), sh, m);
      } else {
        SiblingAboveBlocks(hash, nodes, sh, t, idx, m - sh);
        AuthPathAt(hash, sh, Level(hash, 0, nodes, sh), t, Shr(idx, sh), t, m - sh);
      }
    }
  }
}

/** The parallel signer: key generation, FORS trees and lower subtrees are cut into tasks that the worker
    pool may finish in any order; the bytes it assembles are those of the sequential signer. */
module ParallelSigner {
  import opened Bits
  import opened Bytes
  import opened Params
  import opened Hashing
  import opened Merkle
  import opened Wots
  import opened Trees
  import opened Signature
  import opened Signer
  import opened WorkerPool
  import opened Wrappers

  // ---------------------------------------------------------------- tree indices as decimal strings

  function ToDecimal(n: nat): (s: string)
    ensures |s| >= 1
  {
    var last := [('0' as int + n % 10) as char];
    if n < 10 then last else ToDecimal(n / 10) + last
  }

  function FromDecimal(s: string): nat {
    if |s| == 0 then 0
    else 10 * FromDecimal(s[..|s| - 1]) + (s[|s| - 1] as int - '0' as int) % 10
  }

  lemma {:induction false} DecimalRoundTrip(n: nat)
    ensures FromDecimal(ToDecimal(n)) == n
  {
    var s := ToDecimal(n);
    if n < 10 {
      assert s[..0] == [];
    } else {
      DecimalRoundTrip(n / 10);
      assert s[..|s| - 1] == ToDecimal(n / 10);
    }
  }

  // ---------------------------------------------------------------- tasks

  datatype Task =
    | WotsStd(skSeed: Digest, pkSeed: Node, layer: nat, treeStr: string, start: nat, stop: nat)
    | ForsStd(skSeed: Digest, pkSeed: Node, treeStr: string, leaf: nat, forsTree: nat, revealIdx: nat)

  datatype TaskResult = Leaves(flat: Bytes) | ForsTree(root: Node, authFlat: Bytes) | BadTask

  function RunTask(P: Params, keccak: Keccak, t: Task): TaskResult {
    match t
    case WotsStd(skSeed, pkSeed, layer, treeStr, start, stop) =>
      if start <= stop then
        Leaves(Flat(PublicKeys(Tweak(keccak, pkSeed), skSeed, layer, Big(FromDecimal(treeStr)), start, stop)))
      else BadTask
    case ForsStd(skSeed, pkSeed, treeStr, leaf, forsTree, revealIdx) =>
      if P.forsLeaves == Pow2(P.a) && revealIdx < P.forsLeaves then
        var tw, tree := Tweak(keccak, pkSeed), Big(FromDecimal(treeStr));
        ForsTree(ForsRoot(P, tw, skSeed, tree, leaf, forsTree),
            Flat(ForsAuth(P, tw, skSeed, tree, leaf, forsTree, revealIdx)))
      else BadTask
  }

  /** What a worker does with a task. */
  method RunSphincsTask(P: Params, keccak: Keccak, t: Task) returns (r: TaskResult)
    requires P.Standard()
    ensures r == RunTask(P, keccak, t)
  {
    hide PublicKeys, ForsRoot, ForsAuth, Pow2;
    match t
    case WotsStd(skSeed, pkSeed, layer, treeStr, start, stop) =>
      if start > stop { return BadTask; }
      var out := WotsPkRange(Tweak(keccak, pkSeed), skSeed, layer, Big(FromDecimal(treeStr)), start, stop);
      r := Leaves(out[..]);
    case ForsStd(skSeed, pkSeed, treeStr, leaf, forsTree, revealIdx) =>
      if revealIdx >= P.forsLeaves { return BadTask; }
      var root, auth :=
          ForsTreeRootAuth(P, Tweak(keccak, pkSeed), skSeed, Big(FromDecimal(treeStr)), leaf, forsTree, revealIdx);
      var authFlat := FlattenNodes(auth);
      r := ForsTree(root, authFlat);
  }

  method FlattenNodes(nodes: seq<Node>) returns (flat: Bytes)
    ensures flat == Flat(nodes)
  {
    flat := [];
    assert nodes[..0] == [];
    for h := 0 to |nodes|
      invariant flat == Flat(nodes[..h])
    {
      FlatPush(nodes[..h], nodes[h]);
      assert nodes[..h + 1] == nodes[..h] + [nodes[h]];
      flat := flat + nodes[h];
    }
    assert nodes[..|nodes|] == nodes;
  }

  // ---------------------------------------------------------------- cutting and reassembling leaves

  datatype Range = Range(start: nat, stop: nat)

  /** The ranges from `s` on: consecutive, `per` long, the last one cut off at `total`. */
  function Ranges(total: nat, per: nat, s: nat): seq<Range>
    requires per >= 1
    decreases total - s
  {
    if s >= total then []
    else [Range(s, if s + per < total then s + per else total)] + Ranges(total, per, s + per)
  }

  lemma RangesUnfold(total: nat, per: nat, s: nat)
    requires per >= 1
    ensures Ranges(total, per, s) ==
            if s >= total then []
            else [Range(s, if s + per < total then s + per else total)] + Ranges(total, per, s + per)
  {
  }

  /** Consecutive non-empty ranges from `s` up to `total`. */
  predicate Partitions(ranges: seq<Range>, s: nat, total: nat) {
    if |ranges| == 0 then s == total
    else ranges[0].start == s < ranges[0].stop <= total && Partitions(ranges[1..], ranges[0].stop, total)
  }

  lemma {:induction false} RangesPartition(total: nat, per: nat, s: nat)
    requires per >= 1 && s <= total
    ensures Partitions(Ranges(total, per, s), s, total)
    decreases total - s
  {
    if s < total {
      var r := Ranges(total, per, s);
      assert r[1..] == Ranges(total, per, s + per);
      if s + per < total {
        RangesPartition(total, per, s + per);
      } else {
        assert r[1..] == [];
      }
    }
  }

  lemma Associate(a: seq<Range>, b: Range, c: seq<Range>)
    ensures a + ([b] + c) == a + [b] + c
  {
  }

  /** `Math.max(1, Math.ceil(total / n))` */
  function ChunkSize(total: nat, n: nat): (r: nat)
    requires n >= 1
    ensures r >= 1
  {
    var ceil := (total + n - 1) / n;
    if ceil > 1 then ceil else 1
  }

  /** Cut `total` leaves into about `n` ranges: none is lost and none is covered twice. */
  method RangeChunks(total: nat, n: nat) returns (out: seq<Range>)
    requires n >= 1
    ensures Partitions(out, 0, total)
  {
    hide ChunkSize, Partitions, Ranges;
    var per := ChunkSize(total, n);
    out := [];
    var s := 0;
    while s < total
      invariant per >= 1 && out + Ranges(total, per, s) == Ranges(total, per, 0)
    {
      var next := Range(s, if s + per < total then s + per else total);
      RangesUnfold(total, per, s);
      Associate(out, next, Ranges(total, per, s + per));
      out := out + [next];
      s := s + per;
    }
    RangesUnfold(total, per, s);
    assert out + [] == out;
    RangesPartition(total, per, 0);
  }

  /** Put the leaves of every range back in their places. */
  method AssembleLeaves(total: nat, results: seq<TaskResult>, ranges: seq<Range>, ghost expected: seq<Node>)
    returns (leaves: seq<Node>)
    requires Partitions(ranges, 0, total) && |results| == |ranges| && |expected| == total
    requires forall r :: 0 <= r < |ranges| ==> ranges[r].start <= ranges[r].stop <= total
    requires forall r :: 0 <= r < |ranges| ==> results[r] == Leaves(Flat(expected[ranges[r].start..ranges[r].stop]))
    ensures leaves == expected
  {
    hide Flat;
    leaves := [];
    ghost var at: nat := 0;
    assert ranges[0..] == ranges;
    for r := 0 to |ranges|
      invariant at <= total && leaves == expected[..at]
      invariant Partitions(ranges[r..], at, total)
    {
      assert ranges[r..][0] == ranges[r] && ranges[r..][1..] == ranges[r + 1..];
      var range := ranges[r];
      var part := UnpackLeaves(results[r].flat, range.stop - range.start, expected[range.start..range.stop]);
      assert expected[..range.start] + expected[range.start..range.stop] == expected[..range.stop];
      leaves := leaves + part;
      at := range.stop;
    }
  }

  method UnpackLeaves(flat: Bytes, n: nat, ghost nodes: seq<Node>) returns (part: seq<Node>)
    requires |nodes| == n && flat == Flat(nodes)
    ensures part == nodes
  {
    hide Flat;
    part := [];
    for k := 0 to n
      invariant part == nodes[..k]
    {
      FlatAt(nodes, k);
      part := part + [flat[k * SPX_N..(k + 1) * SPX_N]];
    }
  }

  // ---------------------------------------------------------------- key generation on the pool

  /** A pool whose workers run the tasks of this module. */
  ghost predicate Serves(pool: SphincsPool<Task, TaskResult>, P: Params, keccak: Keccak)
    reads pool
  {
    pool.Valid() && forall t: Task :: pool.run(t) == RunTask(P, keccak, t)
  }

  /** One batch was run since there were `before`, and it failed if and only if `failed`. */
  ghost predicate OneMoreBatch(pool: SphincsPool<Task, TaskResult>, before: seq<Span>, failed: bool)
    reads pool
  {
    |pool.batches| == |before| + 1 && before <= pool.batches && (failed <==> pool.Failed(pool.batches[|before|]))
  }

  lemma {:induction false} PublicKeysSlice(tw: Tweak, skSeed: Digest, layer: nat, tree: TreeIndex, total: nat,
      start: nat, stop: nat)
    requires start <= stop <= total
    ensures PublicKeys(tw, skSeed, layer, tree, start, stop) ==
        PublicKeys(tw, skSeed, layer, tree, 0, total)[start..stop]
  {
    hide PublicKey, PublicKeys;
    var part, whole := PublicKeys(tw, skSeed, layer, tree, start, stop), PublicKeys(tw, skSeed, layer, tree, 0, total);
    forall j | 0 <= j < stop - start ensures part[j] == whole[start..stop][j] {
      PublicKeysAt(tw, skSeed, layer, tree, start, stop, start + j);
      PublicKeysAt(tw, skSeed, layer, tree, 0, total, start + j);
    }
  }

  lemma {:induction false} PartitionBounds(ranges: seq<Range>, s: nat, total: nat, r: nat)
    requires Partitions(ranges, s, total) && r < |ranges|
    ensures ranges[r].start <= ranges[r].stop <= total
  {
    if r > 0 { PartitionBounds(ranges[1..], ranges[0].stop, total, r - 1); }
  }

  /** One task per range of leaves of a subtree. */
  method RangeTasks(key: Seeds, layer: nat, treeStr: string, ranges: seq<Range>) returns (tasks: seq<Task>)
    ensures |tasks| == |ranges|
    ensures forall r :: 0 <= r < |ranges| ==>
              tasks[r] == WotsStd(key.skSeed, key.pkSeed, layer, treeStr, ranges[r].start, ranges[r].stop)
  {
    tasks := [];
    for r := 0 to |ranges|
      invariant |tasks| == r
      invariant forall k :: 0 <= k < r ==>
          tasks[k] == WotsStd(key.skSeed, key.pkSeed, layer, treeStr, ranges[k].start, ranges[k].stop)
    {
      tasks := tasks + [WotsStd(key.skSeed, key.pkSeed, layer, treeStr, ranges[r].start, ranges[r].stop)];
    }
  }

  /** What the range tasks of tree 0 yield, cut from the leaves of the whole subtree. */
  lemma RangeResults(P: Params, keccak: Keccak, seeds: Seeds, layer: nat, ranges: seq<Range>, tasks: seq<Task>,
      results: seq<TaskResult>)
    requires Partitions(ranges, 0, P.leavesPerSubtree) && |tasks| == |results| == |ranges|
    requires forall x :: 0 <= x < |ranges| ==>
               tasks[x] == WotsStd(seeds.skSeed, seeds.pkSeed, layer, ToDecimal(0), ranges[x].start, ranges[x].stop)
    requires forall x :: 0 <= x < |ranges| ==> results[x] == RunTask(P, keccak, tasks[x])
    ensures forall x :: 0 <= x < |ranges| ==> ranges[x].start <= ranges[x].stop <= P.leavesPerSubtree
    ensures var expected := PublicKeys(Tweak(keccak, seeds.pkSeed), seeds.skSeed, layer, Big(0), 0, P.leavesPerSubtree);
            forall x :: 0 <= x < |ranges| ==> results[x] == Leaves(Flat(expected[ranges[x].start..ranges[x].stop]))
  {
    hide Flat, PublicKeys, Partitions, ToDecimal, FromDecimal;
    DecimalRoundTrip(0);
    forall x | 0 <= x < |ranges|
      ensures ranges[x].start <= ranges[x].stop <= P.leavesPerSubtree
      ensures results[x] ==
          Leaves(Flat(PublicKeys(Tweak(keccak, seeds.pkSeed), seeds.skSeed, layer, Big(0), 0,
          P.leavesPerSubtree)[ranges[x].start..ranges[x].stop]))
    {
      PartitionBounds(ranges, 0, P.leavesPerSubtree, x);
      PublicKeysSlice(Tweak(keccak, seeds.pkSeed), seeds.skSeed, layer, Big(0), P.leavesPerSubtree, ranges[x].start,
          ranges[x].stop);
    }
  }

  /** Run one task per range of leaves of tree 0 of a layer. */
  method RunRangeTasks(P: Params, keccak: Keccak, seeds: Seeds, layer: nat, ranges: seq<Range>,
      pool: SphincsPool<Task, TaskResult>)
    returns (r: Option<seq<TaskResult>>)
    requires Serves(pool, P, keccak) && Partitions(ranges, 0, P.leavesPerSubtree)
    modifies pool
    ensures Serves(pool, P, keccak)
    ensures old(pool.failures) <= pool.failures && (r.None? ==> old(pool.failures) < pool.failures)
    ensures OneMoreBatch(pool, old(pool.batches), r.None?)
    ensures forall x :: 0 <= x < |ranges| ==> ranges[x].start <= ranges[x].stop <= P.leavesPerSubtree
    ensures r.Some? ==>
              var tw := Tweak(keccak, seeds.pkSeed);
              var expected := PublicKeys(tw, seeds.skSeed, layer, Big(0), 0, P.leavesPerSubtree);
              && |r.value| == |ranges|
              && forall x :: 0 <= x < |ranges| ==> r.value[x] == Leaves(Flat(expected[ranges[x].start..ranges[x].stop]))
  {
    hide Flat, PublicKeys, Partitions, ToDecimal, RunTask;
    var tasks := RangeTasks(seeds, layer, ToDecimal(0), ranges);
    var batch := pool.RunAll(tasks);
    if batch.BatchRejected? {
      forall x | 0 <= x < |ranges| ensures ranges[x].start <= ranges[x].stop <= P.leavesPerSubtree {
        PartitionBounds(ranges, 0, P.leavesPerSubtree, x);
      }
      return None;
    }
    RangeResults(P, keccak, seeds, layer, ranges, tasks, batch.values);
    r := Some(batch.values);
  }

  /** The leaves of the top subtree, spread over the pool. */
  method TopLeavesAsync(P: Params, keccak: Keccak, seeds: Seeds, pool: SphincsPool<Task, TaskResult>)
    returns (r: Option<seq<Node>>)
    requires P.Standard() && Serves(pool, P, keccak)
    modifies pool
    ensures Serves(pool, P, keccak)
    ensures old(pool.failures) <= pool.failures && (r.None? ==> old(pool.failures) < pool.failures)
    ensures OneMoreBatch(pool, old(pool.batches), r.None?)
    ensures r.Some? ==> r.value == SubtreeLeaves(P, Tweak(keccak, seeds.pkSeed), seeds.skSeed, P.d - 1, Big(0))
  {
    var layer, total := P.d - 1, P.leavesPerSubtree;
    ghost var expected := SubtreeLeaves(P, Tweak(keccak, seeds.pkSeed), seeds.skSeed, layer, Big(0));
    hide Flat, PublicKeys, Partitions, Params.Standard, Serves, OneMoreBatch;
    var byLoad := (total + 16383) / 16384;
    var ranges := RangeChunks(total, if byLoad > pool.size then byLoad else pool.size);
    var results := RunRangeTasks(P, keccak, seeds, layer, ranges, pool);
    if results.None? {
      return None;
    }
    var leaves := AssembleLeaves(total, results.value, ranges, expected);
    r := Some(leaves);
  }

  /** Key generation with the top subtree's leaves spread over the pool. */
  method KeygenTopAsync(P: Params, keccak: Keccak, hdPvk: Bytes, pool: SphincsPool<Task, TaskResult>)
    returns (r: Option<(KeyPair, seq<Node>)>)
    requires P.Standard() && Serves(pool, P, keccak)
    modifies pool
    ensures Serves(pool, P, keccak)
    ensures old(pool.failures) <= pool.failures && (r.None? ==> old(pool.failures) < pool.failures)
    ensures OneMoreBatch(pool, old(pool.batches), r.None?)
    ensures r.Some? ==>
              var (key, topLeaves) := r.value;
              && key == Derived(P, keccak, hdPvk)
              && topLeaves == SubtreeLeaves(P, Tweak(keccak, key.pkSeed), key.skSeed, P.d - 1, Big(0))
  {
    hide SubtreeLeaves, Root, AuthPath, SubtreeHash, Pow2, DeriveSeeds, RunTask;
    var seeds := DeriveSeeds(P, keccak, hdPvk);
    var leaves := TopLeavesAsync(P, keccak, seeds, pool);
    if leaves.None? {
      return None;
    }
    var pkRoot, _ := SubtreeRootAuth(P, Tweak(keccak, seeds.pkSeed), P.d - 1, Big(0), leaves.value, 0);
    r := Some((KeyPair(seeds.skSeed, seeds.pkSeed, pkRoot), leaves.value));
  }

  // ---------------------------------------------------------------- signing on the pool

  method ForsTasks(j: Job) returns (tasks: seq<Task>)
    requires j.Valid()
    ensures |tasks| == j.P.k
    ensures forall i :: 0 <= i < j.P.k ==>
              tasks[i] == ForsStd(j.skSeed, j.tw.pkSeed, ToDecimal(j.at.tree), j.at.leaf, i, j.at.fields[i])
  {
    var treeStr := ToDecimal(j.at.tree);
    tasks := [];
    for i := 0 to j.P.k
      invariant |tasks| == i
      invariant forall x :: 0 <= x < i ==>
          tasks[x] == ForsStd(j.skSeed, j.tw.pkSeed, treeStr, j.at.leaf, x, j.at.fields[x])
    {
      tasks := tasks + [ForsStd(j.skSeed, j.tw.pkSeed, treeStr, j.at.leaf, i, j.at.fields[i])];
    }
  }

  /** The lower-layer subtrees, each under the tree index the walk will have at that layer. */
  method SubtreeTasks(j: Job) returns (tasks: seq<Task>)
    requires j.Valid()
    ensures |tasks| == j.P.d - 1
    ensures forall m :: 0 <= m < j.P.d - 1 ==>
              tasks[m] == WotsStd(j.skSeed, j.tw.pkSeed, m, ToDecimal(TreeAt(j.P, j.at.tree, m)), 0,
                  j.P.leavesPerSubtree)
  {
    hide ToDecimal, Shr;
    tasks := [];
    var t := j.at.tree;
    for layer := 0 to j.P.d - 1
      invariant |tasks| == layer && t == TreeAt(j.P, j.at.tree, layer)
      invariant forall m :: 0 <= m < layer ==>
                  tasks[m] == WotsStd(j.skSeed, j.tw.pkSeed, m, ToDecimal(TreeAt(j.P, j.at.tree, m)), 0,
                      j.P.leavesPerSubtree)
    {
      tasks := tasks + [WotsStd(j.skSeed, j.tw.pkSeed, layer, ToDecimal(t), 0, j.P.leavesPerSubtree)];
      t := Shr(t, j.P.subtreeH);
    }
  }

  /** The results the FORS tasks of a job yield. */
  ghost predicate ForsResults(j: Job, results: seq<TaskResult>)
    requires j.Valid()
  {
    && |results| == j.P.k
    && forall i :: 0 <= i < j.P.k ==>
         results[i] == ForsTree(ForsRoot(j.P, j.tw, j.skSeed, Big(j.at.tree), j.at.leaf, i),
                                Flat(ForsAuth(j.P, j.tw, j.skSeed, Big(j.at.tree), j.at.leaf, i, j.at.fields[i])))
  }

  /** The results the subtree tasks of a job yield. */
  ghost predicate SubtreeResults(j: Job, results: seq<TaskResult>)
    requires j.Valid()
  {
    && |results| == j.P.d - 1
    && forall m :: 0 <= m < j.P.d - 1 ==>
         results[m] == Leaves(Flat(SubtreeLeaves(j.P, j.tw, j.skSeed, m, Big(TreeAt(j.P, j.at.tree, m)))))
  }

  lemma BatchSplits(j: Job, forsTasks: seq<Task>, subTasks: seq<Task>, results: seq<TaskResult>)
    requires j.Valid() && |forsTasks| == j.P.k && |subTasks| == j.P.d - 1 && |results| == j.P.k + j.P.d - 1
    requires forall i :: 0 <= i < j.P.k ==>
               forsTasks[i] == ForsStd(j.skSeed, j.tw.pkSeed, ToDecimal(j.at.tree), j.at.leaf, i, j.at.fields[i])
    requires forall m :: 0 <= m < j.P.d - 1 ==>
               subTasks[m] == WotsStd(j.skSeed, j.tw.pkSeed, m, ToDecimal(TreeAt(j.P, j.at.tree, m)), 0,
                   j.P.leavesPerSubtree)
    requires forall x :: 0 <= x < |results| ==> results[x] == RunTask(j.P, j.tw.keccak, (forsTasks + subTasks)[x])
    ensures ForsResults(j, results[..j.P.k]) && SubtreeResults(j, results[j.P.k..])
  {
    hide Flat, ForsRoot, ForsAuth, PublicKeys, ToDecimal, FromDecimal, TreeAt, Pow2;
    DecimalRoundTrip(j.at.tree);
    forall m | 0 <= m < j.P.d - 1
      ensures results[j.P.k..][m] == Leaves(Flat(SubtreeLeaves(j.P, j.tw, j.skSeed, m, Big(TreeAt(j.P, j.at.tree, m)))))
    {
      DecimalRoundTrip(TreeAt(j.P, j.at.tree, m));
      assert (forsTasks + subTasks)[j.P.k + m] == subTasks[m];
    }
  }

  method WriteForsResults(j: Job, ghost R: Node, blob: array<Byte>, results: seq<TaskResult>) returns (pk: Node)
    requires j.Valid() && blob.Length == j.P.sigLen && ForsResults(j, results)
    requires blob[..16] == Flat([R])
    modifies blob
    ensures pk == NodeAt(j, 0)
    ensures j.P.htOff <= blob.Length && blob[..j.P.htOff] == Flat(ForsPrefix(j, R, j.P.k))
  {
    hide ForsPrefix, ForsParts, ForsRoot, ForsRoots, ForsCompress, ForsAuth, Flat, Pow2, Params.Standard;
    ForsPartBegins(j, R);
    ForsPartsFit(j, R, 0);
    ForsPartsFit(j, R, j.P.k);
    var roots: seq<Node> := [];
    for i := 0 to j.P.k
      invariant roots == ForsRoots(j.P, j.tw, j.skSeed, Big(j.at.tree), j.at.leaf, i)
      invariant 16 * |ForsPrefix(j, R, i)| <= blob.Length
      invariant blob[..16 * |ForsPrefix(j, R, i)|] == Flat(ForsPrefix(j, R, i))
    {
      ForsPartsFit(j, R, i + 1);
      ForsRootsPush(j.P, j.tw, j.skSeed, Big(j.at.tree), j.at.leaf, i);
      WriteForsResult(j, R, blob, i, results[i]);
      roots := roots + [results[i].root];
    }
    pk := ForsCompress(j.tw, Big(j.at.tree), j.at.leaf, roots);
  }

  /** One FORS tree from its result: the revealed secret, then the whole path in one write. */
  method WriteForsResult(j: Job, ghost R: Node, blob: array<Byte>, i: nat, result: TaskResult)
    requires j.Valid() && i < j.P.k && blob.Length == j.P.sigLen
    requires result.ForsTree? &&
        result.authFlat == Flat(ForsAuth(j.P, j.tw, j.skSeed, Big(j.at.tree), j.at.leaf, i, j.at.fields[i]))
    requires 16 * |ForsPrefix(j, R, i + 1)| <= blob.Length
    requires blob[..16 * |ForsPrefix(j, R, i)|] == Flat(ForsPrefix(j, R, i))
    modifies blob
    ensures blob[..16 * |ForsPrefix(j, R, i + 1)|] == Flat(ForsPrefix(j, R, i + 1))
  {
    hide ForsSk, ForsAuth, Flat, ForsPrefix, Pow2;
    ForsPrefixGrows(j, R, i);
    ghost var auth := ForsAuth(j.P, j.tw, j.skSeed, Big(j.at.tree), j.at.leaf, i, j.at.fields[i]);
    var sk := ForsSk(j.tw.keccak, j.skSeed, Big(j.at.tree), j.at.leaf, i, j.at.fields[i]);
    EmitTree(blob, j.P.forsOff + i * j.P.forsPerTree, ForsPrefix(j, R, i), sk, result.authFlat, auth);
  }

  method EmitTree(blob: array<Byte>, off: nat, ghost written: seq<Node>, sk: Node, authFlat: Bytes,
      ghost auth: seq<Node>)
    requires off == 16 * |written| && authFlat == Flat(auth) && 16 * |written + [sk] + auth| <= blob.Length
    requires blob[..off] == Flat(written)
    modifies blob
    ensures blob[..16 * |written + [sk] + auth|] == Flat(written + [sk] + auth)
  {
    hide Flat;
    EmitNode(blob, off, written, sk);
    EmitFlat(blob, off + SPX_N, written + [sk], authFlat, auth);
  }

  method WriteHypertreeResults(j: Job, ghost R: Node, blob: array<Byte>, forsPk: Node, topLeaves: seq<Node>,
      results: seq<TaskResult>)
    returns (node: Node)
    requires j.Valid() && blob.Length == j.P.sigLen && TreeAt(j.P, j.at.tree, j.P.d - 1) == 0
    requires topLeaves == SubtreeLeaves(j.P, j.tw, j.skSeed, j.P.d - 1, Big(0)) && SubtreeResults(j, results)
    requires forsPk == NodeAt(j, 0)
    requires j.P.htOff <= blob.Length && blob[..j.P.htOff] == Flat(ForsPrefix(j, R, j.P.k))
    modifies blob
    ensures node == NodeAt(j, j.P.d)
    ensures blob[..] == Flat(SigNodes(j, R))
  {
    hide NodeAt, SubtreeLeaves, Flat, LayerPart, ForsPrefix;
    var P := j.P;
    PartsTileTheSignature(j, R);
    ghost var below := ForsPrefix(j, R, P.k);
    node := forsPk;
    var tree, leaf, off := j.at.tree, j.at.leaf, P.htOff;
    assert below + [] == below;
    for layer := 0 to P.d
      invariant tree == TreeAt(P, j.at.tree, layer) && leaf == LeafAt(P, j.at.tree, j.at.leaf, layer)
      invariant node == NodeAt(j, layer)
      invariant off == 16 * |below + LayerParts(j, layer)| == P.htOff + layer * P.htLayerLen
      invariant off <= blob.Length && blob[..off] == Flat(below + LayerParts(j, layer))
    {
      LayersFit(j, layer);
      var leaves := topLeaves;
      if layer != P.d - 1 {
        leaves := UnpackLeaves(results[layer].flat, P.leavesPerSubtree,
            SubtreeLeaves(P, j.tw, j.skSeed, layer, Big(tree)));
      }
      node := WriteLayer(j, below + LayerParts(j, layer), blob, off, layer, tree, leaf, node, leaves);
      assert below + LayerParts(j, layer) + LayerPart(j, layer) == below + LayerParts(j, layer + 1);
      off := off + P.wotsSigLen + P.htTreeAuthLen;
      leaf := And(tree, P.leavesPerSubtree - 1);
      tree := Shr(tree, P.subtreeH);
    }
    assert blob[..] == blob[..off];
  }

  /** Every FORS tree and every lower subtree of a job, in one round on the pool. */
  method RunSigningTasks(j: Job, pool: SphincsPool<Task, TaskResult>) returns (r: Option<seq<TaskResult>>)
    requires j.Valid() && Serves(pool, j.P, j.tw.keccak)
    modifies pool
    ensures Serves(pool, j.P, j.tw.keccak)
    ensures old(pool.failures) <= pool.failures && (r.None? ==> old(pool.failures) < pool.failures)
    ensures OneMoreBatch(pool, old(pool.batches), r.None?)
    ensures r.Some? ==>
              && |r.value| == j.P.k + j.P.d - 1
              && ForsResults(j, r.value[..j.P.k]) && SubtreeResults(j, r.value[j.P.k..])
  {
    hide RunTask, ForsResults, SubtreeResults, ToDecimal, TreeAt;
    var forsTasks := ForsTasks(j);
    var subTasks := SubtreeTasks(j);
    var batch := pool.RunAll(forsTasks + subTasks);
    if batch.BatchRejected? {
      return None;
    }
    BatchSplits(j, forsTasks, subTasks, batch.values);
    r := Some(batch.values);
  }

  /** The signature buffer filled from the results of a round. */
  method AssembleSignature(j: Job, R: Node, topLeaves: seq<Node>, results: seq<TaskResult>)
    returns (sig: Bytes, node: Node)
    requires j.Valid() && TreeAt(j.P, j.at.tree, j.P.d - 1) == 0
    requires topLeaves == SubtreeLeaves(j.P, j.tw, j.skSeed, j.P.d - 1, Big(0))
    requires |results| == j.P.k + j.P.d - 1
    requires ForsResults(j, results[..j.P.k]) && SubtreeResults(j, results[j.P.k..])
    ensures sig == Flat(SigNodes(j, R)) && node == NodeAt(j, j.P.d)
  {
    hide Flat, SubtreeLeaves, NodeAt, SigNodes, ForsPrefix, ForsResults, SubtreeResults, TreeAt, Pow2;
    PartsTileTheSignature(j, R);
    var lower, upper := results[..j.P.k], results[j.P.k..];
    var blob := new Byte[j.P.sigLen](_ => 0);
    SetBytes(blob, 0, R);
    FlatSingle(R);
    var forsPk := WriteForsResults(j, R, blob, lower);
    node := WriteHypertreeResults(j, R, blob, forsPk, topLeaves, upper);
    sig := blob[..];
  }

  /** The parallel signer returns the sequential signer's bytes for every pool size and every order in
      which workers finish. The only other outcome is a rejection, and only when a task of a batch that this
      call ran has failed. */
  method SphincsSignAsyncStd(P: Params, keccak: Keccak, hdPvk: Bytes, message: Bytes, pool: SphincsPool<Task,
      TaskResult>)
    returns (r: SignResult)
    requires P.Standard() && Serves(pool, P, keccak)
    modifies pool
    ensures Serves(pool, P, keccak)
    ensures |message| != 32 ==> r == Rejected(MessageLength)
    ensures |message| == 32 ==>
              var key := Derived(P, keccak, hdPvk);
              || (r == Rejected(PoolFailed) && old(pool.failures) < pool.failures
                  && exists b :: |old(pool.batches)| <= b < |pool.batches| && pool.Failed(pool.batches[b]))
              || r == Signed(SignatureOf(P, keccak, key, message), key.pkSeed, key.pkRoot,
                  Randomizer(keccak, key.skSeed, message))
  {
    hide Derived, Flat, SubtreeLeaves, NodeAt, SigNodes, RunTask, ForsResults, SubtreeResults, ToDecimal, TreeAt,
        JobUnder, Randomizer;
    if |message| != 32 {
      return Rejected(MessageLength);
    }
    var generated := KeygenTopAsync(P, keccak, hdPvk, pool);
    if generated.None? {
      return Rejected(PoolFailed);
    }
    var (key, topLeaves) := generated.value;
    var R := Randomizer(keccak, key.skSeed, message);
    var j := JobFor(P, keccak, key, message);
    JobForIsValid(P, keccak, key, message);
    JobUnderHas(P, keccak, key, R, message);
    var results := RunSigningTasks(j, pool);
    if results.None? {
      return Rejected(PoolFailed);
    }
    var sig, node := AssembleSignature(j, R, topLeaves, results.value);
    TopNodeIsPublicRoot(P, keccak, hdPvk, j);
    if node != key.pkRoot {
      return Rejected(SignError.RootMismatch);
    }
    r := Signed(sig, key.pkSeed, key.pkRoot, R);
  }
}

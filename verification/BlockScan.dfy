/** One scan of a range of blocks: which blocks the node handed over, and how far the range is free of gaps. */
module BlockScan {
  import opened Wrappers

  /** What the node answers when asked for one block: nothing, or a block under the number it carries. */
  datatype Answer = Missing | Block(number: Option<int>)

  /** How one request for a chunk of blocks fares as a whole. */
  datatype Batch = Served | Down | RateLimited

  datatype Node = Node(answer: int -> Answer, batch: nat -> Batch)

  const CONCURRENCY: nat := 24

  /** `highest` is the last block up to which the range has no gap. */
  datatype Scan = Scan(fetched: set<int>, highest: int, throttled: bool)

  /** What every scan guarantees, whatever fails. */
  ghost predicate ScanOk(s: Scan, start: int, stop: int) {
    && start - 1 <= s.highest <= stop
    && forall b :: start <= b <= s.highest ==> b in s.fetched
  }

  /** A scan in which nothing failed. */
  predicate Flawless(s: Scan, stop: int) {
    !s.throttled && s.highest == stop
  }

  /** The scan stopped because the next block was really not handed over. */
  predicate Maximal(s: Scan, stop: int) {
    s.throttled || s.highest == stop || s.highest + 1 !in s.fetched
  }

  /** A block came back for every request of a range. */
  ghost predicate AllAnswered(node: Node, start: int, stop: int) {
    forall b :: start <= b <= stop ==> node.answer(b).Block?
  }

  /** A node that never passes one block off as another. */
  ghost predicate Honest(node: Node) {
    forall b :: node.answer(b) == Missing || node.answer(b) == Block(Some(b))
  }

  ghost predicate AllServed(node: Node, start: int, stop: int) {
    && (forall i :: node.batch(i) == Served)
    && forall b :: start <= b <= stop ==> node.answer(b) == Block(Some(b))
  }

  /** The node handed over a block of the range under this number. */
  ghost predicate HandedOver(node: Node, start: int, stop: int, x: int) {
    exists b :: start <= b <= stop && node.answer(b) == Block(Some(x))
  }

  /** Chunk `i` of the range is not empty. */
  predicate ChunkOf(start: int, stop: int, i: nat) {
    start + CONCURRENCY * i <= stop
  }

  /** The last block before the first one that is missing from `fetched` or failed. */
  method ContiguousHigh(start: int, stop: int, fetched: set<int>, earliestFailed: Option<int>) returns (n: int)
    requires start - 1 <= stop && (earliestFailed.Some? ==> start <= earliestFailed.value <= stop)
    ensures start - 1 <= n <= stop && (forall b :: start <= b <= n ==> b in fetched)
    ensures n == stop || n + 1 !in fetched || earliestFailed == Some(n + 1)
    ensures earliestFailed.None? && (forall b :: start <= b <= stop ==> b in fetched) ==> n == stop
  {
    var ceiling := if earliestFailed.Some? then earliestFailed.value - 1 else stop;
    n := start - 1;
    var b := start;
    while b <= ceiling
      invariant start <= b <= ceiling + 1 && n == b - 1
      invariant forall x :: start <= x <= n ==> x in fetched
    {
      if b !in fetched {
        break;
      }
      n := b;
      b := b + 1;
    }
  }

  /** Ask for one chunk and note what came back. */
  method ScanChunk(node: Node, index: nat, start: int, stop: int, fetched: set<int>, earliestFailed: Option<int>)
    returns (fetched': set<int>, earliestFailed': Option<int>)
    requires start <= stop + 1 && (earliestFailed.Some? ==> earliestFailed.value < start)
    ensures fetched <= fetched'
    ensures earliestFailed'.Some? ==> earliestFailed' == earliestFailed || start <= earliestFailed'.value <= stop
    ensures earliestFailed.Some? ==> earliestFailed' == earliestFailed
    ensures node.batch(index).Served? && earliestFailed'.None? ==>
              forall b :: start <= b <= stop ==>
                  node.answer(b).Block? && (node.answer(b).number.Some? ==> node.answer(b).number.value in fetched')
    ensures node.batch(index).Served? && earliestFailed.None? && AllAnswered(node, start, stop) ==>
              earliestFailed'.None?
    ensures forall x :: x in fetched' ==>
        x in fetched || exists b :: start <= b <= stop && node.batch(index).Served? && node.answer(b) == Block(Some(x))
    ensures earliestFailed'.Some? && earliestFailed.None? ==>
              node.batch(index) != Served || node.answer(earliestFailed'.value) == Missing
  {
    fetched', earliestFailed' := fetched, earliestFailed;
    var b := start;
    while b <= stop
      invariant start <= b <= stop + 1 && fetched <= fetched'
      invariant earliestFailed'.Some? ==> earliestFailed' == earliestFailed || start <= earliestFailed'.value < b
      invariant earliestFailed.Some? ==> earliestFailed' == earliestFailed
      invariant node.batch(index).Served? && earliestFailed'.None? ==>
                  forall x :: start <= x < b ==>
                      node.answer(x).Block? && (node.answer(x).number.Some? ==> node.answer(x).number.value in fetched')
      invariant node.batch(index).Served? && earliestFailed.None? && AllAnswered(node, start, stop) ==>
                  earliestFailed'.None?
      invariant forall x :: x in fetched' ==>
          x in fetched || exists y ::
          start <= y <= stop && node.batch(index).Served? && node.answer(y) == Block(Some(x))
      invariant earliestFailed'.Some? && earliestFailed.None? ==>
                  node.batch(index) != Served || node.answer(earliestFailed'.value) == Missing
    {
      var got := if node.batch(index).Served? then node.answer(b) else Missing;
      if got.Missing? {
        if earliestFailed'.None? || b < earliestFailed'.value {
          earliestFailed' := Some(b);
        }
      } else if got.number.Some? {
        fetched' := fetched' + {got.number.value};
      }
      b := b + 1;
    }
  }

  /** Scan the blocks `start` to `stop` in chunks, stopping early when the node limits the rate. */
  method ScanIncoming(node: Node, start: int, stop: int) returns (s: Scan)
    requires start <= stop
    ensures ScanOk(s, start, stop)
    ensures AllServed(node, start, stop) ==> Flawless(s, stop)
    ensures Honest(node) ==> Maximal(s, stop)
    ensures forall x :: x in s.fetched ==> HandedOver(node, start, stop, x)
    ensures s.throttled <==> exists i :: ChunkOf(start, stop, i) && node.batch(i).RateLimited?
  {
    var fetched: set<int>, earliestFailed: Option<int> := {}, None;
    var next, i := start, 0;
    while next <= stop
      invariant start <= next <= stop + 1
      invariant earliestFailed.Some? ==> start <= earliestFailed.value < next
      invariant AllServed(node, start, stop) ==> earliestFailed.None? && forall b :: start <= b < next ==> b in fetched
      invariant Honest(node) ==> forall x :: x in fetched ==> start <= x < next && Some(x) != earliestFailed
      invariant forall x :: x in fetched ==> HandedOver(node, start, stop, x)
      invariant next == start + CONCURRENCY * i || next == stop + 1 <= start + CONCURRENCY * i
      invariant next > start ==> start + CONCURRENCY * (i - 1) < next
      invariant forall x :: 0 <= x < i ==> !node.batch(x).RateLimited?
      decreases stop - next
    {
      var last := if next + CONCURRENCY - 1 < stop then next + CONCURRENCY - 1 else stop;
      fetched, earliestFailed := ScanChunk(node, i, next, last, fetched, earliestFailed);
      forall b | AllServed(node, start, stop) && next <= b <= last ensures b in fetched {
        assert node.answer(b) == Block(Some(b));
      }
      if node.batch(i).RateLimited? {
        var high := ContiguousHigh(start, stop, fetched, earliestFailed);
        return Scan(fetched, high, true);
      }
      next := last + 1;
      i := i + 1;
    }
    var high := ContiguousHigh(start, stop, fetched, earliestFailed);
    s := Scan(fetched, high, false);
  }
}

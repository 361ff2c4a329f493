/** The order in which pending transactions are offered to the adaptive batch: first-seen times per
    transaction, an arrival time per sender, and a comparator that groups by sender. */
module CandidateOrder {
  import opened Bytes

  datatype Tx = Tx(hash: Bytes, sender: Bytes, nonce: nat)

  // ---------------------------------------------------------------- byte strings in order

  /** `SequenceCompareTo`: the first differing byte decides, then the length. */
  function Compare(a: Bytes, b: Bytes): (r: int)
    ensures -1 <= r <= 1
  {
    if |a| == 0 then if |b| == 0 then 0 else -1
    else if |b| == 0 then 1
    else if a[0] != b[0] then if a[0] < b[0] then -1 else 1
    else Compare(a[1..], b[1..])
  }

  lemma {:induction false} CompareIsExact(a: Bytes, b: Bytes)
    ensures Compare(a, b) == 0 <==> a == b
    ensures Compare(a, b) == -Compare(b, a)
  {
    if |a| > 0 && |b| > 0 && a[0] == b[0] {
      CompareIsExact(a[1..], b[1..]);
      assert a == [a[0]] + a[1..] && b == [b[0]] + b[1..];
    }
  }

  /** `a` is a proper prefix of `b`, or smaller at the first byte in which they differ. */
  ghost predicate Precedes(a: Bytes, b: Bytes) {
    exists n: nat :: DiffersAt(a, b, n)
  }

  predicate DiffersAt(a: Bytes, b: Bytes, n: nat) {
    n <= |a| && n <= |b| && a[..n] == b[..n] && n < |b| && (n == |a| || a[n] < b[n])
  }

  lemma {:induction false} CompareIsLexicographic(a: Bytes, b: Bytes)
    ensures Compare(a, b) < 0 <==> Precedes(a, b)
  {
    if |a| > 0 && |b| > 0 && a[0] == b[0] {
      CompareIsLexicographic(a[1..], b[1..]);
      if Precedes(a[1..], b[1..]) {
        var n: nat :| DiffersAt(a[1..], b[1..], n);
        assert a[..n + 1] == [a[0]] + a[1..][..n] && b[..n + 1] == [b[0]] + b[1..][..n];
        assert DiffersAt(a, b, n + 1);
      }
      if Precedes(a, b) {
        var n: nat :| DiffersAt(a, b, n);
        assert n > 0;
        assert a[1..][..n - 1] == a[..n][1..] && b[1..][..n - 1] == b[..n][1..];
        assert DiffersAt(a[1..], b[1..], n - 1);
      }
    } else {
      if Compare(a, b) < 0 { assert DiffersAt(a, b, 0); }
      if Precedes(a, b) {
        var n: nat :| DiffersAt(a, b, n);
        assert n > 0 ==> a[..n][0] == b[..n][0];
      }
    }
  }

  lemma {:induction false} CompareIsTransitive(a: Bytes, b: Bytes, c: Bytes)
    requires Compare(a, b) <= 0 && Compare(b, c) <= 0
    ensures Compare(a, c) <= 0
    ensures Compare(a, c) == 0 ==> Compare(a, b) == 0 && Compare(b, c) == 0
  {
    if |a| > 0 && |b| > 0 && |c| > 0 && a[0] == b[0] == c[0] {
      CompareIsTransitive(a[1..], b[1..], c[1..]);
    }
  }

  // ---------------------------------------------------------------- arrival times

  predicate Seen(firstSeen: map<Bytes, real>, txs: seq<Tx>) {
    forall tx :: tx in txs ==> tx.hash in firstSeen
  }

  /** `at` is the earliest first-seen time among the sender's transactions. */
  ghost predicate IsArrival(firstSeen: map<Bytes, real>, txs: seq<Tx>, sender: Bytes, at: real)
    requires Seen(firstSeen, txs)
  {
    && (exists tx :: tx in txs && tx.sender == sender && firstSeen[tx.hash] == at)
    && (forall tx :: tx in txs && tx.sender == sender ==> at <= firstSeen[tx.hash])
  }

  ghost predicate AreArrivals(firstSeen: map<Bytes, real>, txs: seq<Tx>, arrivals: map<Bytes, real>)
    requires Seen(firstSeen, txs)
  {
    && (forall tx :: tx in txs ==> tx.sender in arrivals)
    && (forall sender :: sender in arrivals ==> IsArrival(firstSeen, txs, sender, arrivals[sender]))
  }

  class ArrivalTracker {
    var firstSeen: map<Bytes, real>

    constructor ()
      ensures firstSeen == map[]
    {
      firstSeen := map[];
    }

    /** Note the time at which each pending transaction was first seen, and forget the ones no longer pending. */
    method Observe(candidates: seq<Tx>, now: real)
      modifies this
      ensures Seen(firstSeen, candidates)
      ensures forall h :: h in firstSeen <==> exists tx :: tx in candidates && tx.hash == h
      ensures forall h :: h in firstSeen ==> firstSeen[h] == if h in old(firstSeen) then old(firstSeen)[h] else now
    {
      var pending: set<Bytes> := {};
      for i := 0 to |candidates|
        invariant pending == set x | 0 <= x < i :: candidates[x].hash
        invariant firstSeen.Keys == old(firstSeen).Keys + pending
        invariant forall h :: h in firstSeen ==> firstSeen[h] == if h in old(firstSeen) then old(firstSeen)[h] else now
      {
        var hash := candidates[i].hash;
        pending := pending + {hash};
        if hash !in firstSeen {
          firstSeen := firstSeen[hash := now];
        }
      }
      ghost var noted := firstSeen;
      var keys := firstSeen.Keys;
      while keys != {}
        invariant keys <= noted.Keys && firstSeen.Keys == keys + (noted.Keys * pending)
        invariant forall h :: h in firstSeen ==> firstSeen[h] == noted[h]
        decreases keys
      {
        var hash :| hash in keys;
        keys := keys - {hash};
        if hash !in pending {
          firstSeen := firstSeen - {hash};
        }
      }
      forall h | h in firstSeen ensures exists tx :: tx in candidates && tx.hash == h {
        var x :| 0 <= x < |candidates| && candidates[x].hash == h;
        assert candidates[x] in candidates;
      }
    }

    /** The earliest first-seen time of each sender. */
    method SenderArrivals(candidates: seq<Tx>) returns (arrivals: map<Bytes, real>)
      requires Seen(firstSeen, candidates)
      ensures AreArrivals(firstSeen, candidates, arrivals)
    {
      arrivals := map[];
      for i := 0 to |candidates|
        invariant AreArrivals(firstSeen, candidates[..i], arrivals)
      {
        var tx := candidates[i];
        var seen := firstSeen[tx.hash];
        var at := if tx.sender in arrivals && arrivals[tx.sender] <= seen then arrivals[tx.sender] else seen;
        assert candidates[..i + 1] == candidates[..i] + [tx];
        OneMoreArrival(firstSeen, candidates[..i], arrivals, tx);
        arrivals := arrivals[tx.sender := at];
      }
      assert candidates[..|candidates|] == candidates;
    }
  }

  lemma OneMoreArrival(firstSeen: map<Bytes, real>, txs: seq<Tx>, arrivals: map<Bytes, real>, tx: Tx)
    requires Seen(firstSeen, txs + [tx]) && Seen(firstSeen, txs) && AreArrivals(firstSeen, txs, arrivals) &&
        tx.hash in firstSeen
    ensures var seen := firstSeen[tx.hash];
            var at := if tx.sender in arrivals && arrivals[tx.sender] <= seen then arrivals[tx.sender] else seen;
            AreArrivals(firstSeen, txs + [tx], arrivals[tx.sender := at])
  {
    var seen := firstSeen[tx.hash];
    var at := if tx.sender in arrivals && arrivals[tx.sender] <= seen then arrivals[tx.sender] else seen;
    var more := arrivals[tx.sender := at];
    forall sender | sender in more ensures IsArrival(firstSeen, txs + [tx], sender, more[sender]) {
      if sender != tx.sender || at != seen {
        var first :| first in txs && first.sender == sender && firstSeen[first.hash] == arrivals[sender];
        assert first in txs + [tx];
      } else {
        assert tx in txs + [tx];
      }
    }
  }

  // ---------------------------------------------------------------- the comparator

  function Sign(x: real): int {
    if x < 0.0 then -1 else if x > 0.0 then 1 else 0
  }

  function ArrivalOf(arrivals: map<Bytes, real>, now: real, sender: Bytes): real {
    if sender in arrivals then arrivals[sender] else now
  }

  function Order(arrivals: map<Bytes, real>, now: real, a: Tx, b: Tx): int {
    if a.sender == b.sender then a.nonce - b.nonce
    else
      var arrival := Sign(ArrivalOf(arrivals, now, a.sender) - ArrivalOf(arrivals, now, b.sender));
      if arrival != 0 then arrival else Compare(a.sender, b.sender)
  }

  /** The comparator is a total preorder, in which only equal nonces of one sender tie. */
  lemma OrderIsTotal(arrivals: map<Bytes, real>, now: real, a: Tx, b: Tx)
    ensures Order(arrivals, now, a, a) == 0
    ensures Order(arrivals, now, a, b) < 0 <==> Order(arrivals, now, b, a) > 0
    ensures Order(arrivals, now, a, b) == 0 <==> a.sender == b.sender && a.nonce == b.nonce
  {
    CompareIsExact(a.sender, b.sender);
  }

  lemma OrderIsTransitive(arrivals: map<Bytes, real>, now: real, a: Tx, b: Tx, c: Tx)
    requires Order(arrivals, now, a, b) <= 0 && Order(arrivals, now, b, c) <= 0
    ensures Order(arrivals, now, a, c) <= 0
  {
    CompareIsExact(a.sender, b.sender);
    CompareIsExact(b.sender, c.sender);
    if Compare(a.sender, b.sender) <= 0 && Compare(b.sender, c.sender) <= 0 {
      CompareIsTransitive(a.sender, b.sender, c.sender);
    }
  }

  /** What any correct sort with this comparator may return. */
  ghost predicate IsSorting(arrivals: map<Bytes, real>, now: real, txs: seq<Tx>, sorted: seq<Tx>) {
    && multiset(sorted) == multiset(txs)
    && forall x, y :: 0 <= x < y < |sorted| ==> Order(arrivals, now, sorted[x], sorted[y]) <= 0
  }

  /** In every sorting each sender's transactions stand together, in nonce order, and senders follow one
      another by their earliest arrival, and by address where that is the same. */
  lemma SendersStayTogether(firstSeen: map<Bytes, real>, arrivals: map<Bytes, real>, now: real, txs: seq<Tx>,
      sorted: seq<Tx>)
    requires Seen(firstSeen, txs) && AreArrivals(firstSeen, txs, arrivals) && IsSorting(arrivals, now, txs, sorted)
    ensures forall x, y, z :: 0 <= x < y < z < |sorted| && sorted[x].sender == sorted[z].sender ==>
        sorted[y].sender == sorted[x].sender
    ensures forall x, y :: 0 <= x < y < |sorted| && sorted[x].sender == sorted[y].sender ==>
        sorted[x].nonce <= sorted[y].nonce
    ensures forall x, y :: 0 <= x < y < |sorted| ==>
              && sorted[x].sender in arrivals && sorted[y].sender in arrivals
              && arrivals[sorted[x].sender] <= arrivals[sorted[y].sender]
              && (arrivals[sorted[x].sender] == arrivals[sorted[y].sender] && sorted[x].sender != sorted[y].sender ==>
                    Precedes(sorted[x].sender, sorted[y].sender))
  {
    forall x | 0 <= x < |sorted| ensures sorted[x].sender in arrivals {
      assert sorted[x] in multiset(sorted);
      assert sorted[x] in txs;
    }
    forall x, y, z | 0 <= x < y < z < |sorted| &&
        sorted[x].sender == sorted[z].sender ensures sorted[y].sender == sorted[x].sender {
      BetweenIsSame(arrivals, now, sorted[x], sorted[y], sorted[z]);
    }
    hide IsArrival, Precedes;
    forall x, y | 0 <= x < y < |sorted| && sorted[x].sender != sorted[y].sender &&
        arrivals[sorted[x].sender] == arrivals[sorted[y].sender] ensures Precedes(sorted[x].sender, sorted[y].sender) {
      TieByAddress(arrivals, now, sorted[x], sorted[y]);
    }
  }

  lemma TieByAddress(arrivals: map<Bytes, real>, now: real, a: Tx, b: Tx)
    requires a.sender in arrivals && b.sender in arrivals && arrivals[a.sender] == arrivals[b.sender]
    requires a.sender != b.sender && Order(arrivals, now, a, b) <= 0
    ensures Precedes(a.sender, b.sender)
  {
    CompareIsExact(a.sender, b.sender);
    CompareIsLexicographic(a.sender, b.sender);
  }

  lemma BetweenIsSame(arrivals: map<Bytes, real>, now: real, a: Tx, b: Tx, c: Tx)
    requires a.sender == c.sender && Order(arrivals, now, a, b) <= 0 && Order(arrivals, now, b, c) <= 0
    ensures b.sender == a.sender
  {
    CompareIsExact(a.sender, b.sender);
  }

  // ---------------------------------------------------------------- the comparator it replaced

  function MixedOrder(firstSeen: map<Bytes, real>, a: Tx, b: Tx): int
    requires a.hash in firstSeen && b.hash in firstSeen
  {
    if a.sender == b.sender then a.nonce - b.nonce else Sign(firstSeen[a.hash] - firstSeen[b.hash])
  }

  /** Comparing nonces within a sender and first-seen times across senders goes round in a circle: the second
      nonce of one sender before another sender's transaction, that one before the first nonce, and the first
      nonce before the second. */
  lemma MixedOrderHasCycle(firstSeen: map<Bytes, real>, first: Tx, second: Tx, other: Tx)
    requires first.hash in firstSeen && second.hash in firstSeen && other.hash in firstSeen
    requires first.sender == second.sender != other.sender && first.nonce < second.nonce
    ensures var f := firstSeen;
            (MixedOrder(f, second, other) < 0 && MixedOrder(f, other, first) < 0 && MixedOrder(f, first, second) < 0)
            <==> f[second.hash] < f[other.hash] < f[first.hash]
  {
  }

  lemma MixedOrderExample()
    ensures var f := map[[1] := 2.0, [2] := 0.0, [3] := 1.0];
            var first, second, other := Tx([1], [7], 0), Tx([2], [7], 1), Tx([3], [9], 0);
            MixedOrder(f, second, other) < 0 && MixedOrder(f, other, first) < 0 && MixedOrder(f, first, second) < 0
  {
    var first, second, other := Tx([1], [7], 0), Tx([2], [7], 1), Tx([3], [9], 0);
    MixedOrderHasCycle(map[[1] := 2.0, [2] := 0.0, [3] := 1.0], first, second, other);
  }
}

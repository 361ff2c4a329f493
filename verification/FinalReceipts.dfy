/** What a send makes of receipts: nothing is called final without a receipt of its own, a watch is as long as it says,
    and an answer that leaves the outcome open is kept in the journal as such. */
module FinalReceipts {
  import opened Bytes
  import opened FramePayload
  import opened SendProtocol
  import opened Wrappers

  // ---------------------------------------------------------------- final means a receipt was seen

  /** A receipt under this hash, of a frame transaction, included in a block, with a status. */
  predicate Settles(receipt: Option<Receipt>, hash: Bytes) {
    receipt.Some? && receipt.value.hash == hash && receipt.value.kind == 6
    && receipt.value.status.Some? && receipt.value.block.Some?
  }

  /** Some context was answered with such a receipt. */
  predicate SeenAt(e: Event, hash: Bytes) {
    e.Step? && (e.act.Refresh? || e.act.Watch?) && Settles(e.act.receipt, hash)
  }

  lemma FinalGrowsByReceipt(codec: Codec, s: State, c: nat, act: Act, hash: Bytes)
    requires c in s.contexts && Perform(codec, s, c, act).Some?
    ensures hash in Perform(codec, s, c, act).value.final ==> hash in s.final || SeenAt(Step(c, act), hash)
  {
    hide PrepareCall, CheckCall;
  }

  /** In every run, whatever happens to the lock: what counts as final was seen so in a receipt of its own. */
  lemma {:induction false} FinalHasReceipt(codec: Codec, ids: set<nat>, events: seq<Event>, hash: Bytes)
    requires Run(codec, Initial(ids), events).Some? && hash in Run(codec, Initial(ids), events).value.final
    ensures exists i :: 0 <= i < |events| && SeenAt(events[i], hash)
  {
    hide Perform, SeenAt;
    if |events| > 0 {
      var before, e := events[..|events| - 1], events[|events| - 1];
      var s := Run(codec, Initial(ids), before).value;
      if e.Step? { FinalGrowsByReceipt(codec, s, e.c, e.act, hash); }
      if hash in s.final {
        FinalHasReceipt(codec, ids, before, hash);
        var i :| 0 <= i < |before| && SeenAt(before[i], hash);
        assert SeenAt(events[i], hash);
      } else {
        assert SeenAt(events[|events| - 1], hash);
      }
    }
  }

  // ---------------------------------------------------------------- how long a send is watched

  /** Nothing in the answers, `n` times. */
  function Pending(c: nat, n: nat): seq<Event> {
    if n == 0 then [] else Pending(c, n - 1) + [Step(c, Watch(None))]
  }

  lemma WatchesOn(codec: Codec, s: State, c: nat, tx: Tx, n: nat)
    requires c in s.contexts && n < 90
    ensures Perform(codec, Goto(s, c, Watching(tx, n)), c, Watch(None))
         == Some(Goto(s, c, if n + 1 < 90 then Watching(tx, n + 1) else Leaving))
  {
    hide PrepareCall, CheckCall;
    var before, pc := Goto(s, c, Watching(tx, n)), if n + 1 < 90 then Watching(tx, n + 1) else Leaving;
    assert Goto(before, c, pc).contexts == Goto(s, c, pc).contexts;
  }

  /** A posted transaction is looked for ninety times, two seconds apart; then the send gives up and leaves, with the
      journal as it was. */
  lemma {:induction false} WatchesNinetyTimes(codec: Codec, s: State, c: nat, tx: Tx, n: nat)
    requires c in s.contexts && s.contexts[c].pc == Watching(tx, 0) && n <= 90
    ensures Run(codec, s, Pending(c, n))
         == Some(Goto(s, c, if n < 90 then Watching(tx, n) else Leaving))
  {
    hide Perform;
    if n == 0 {
      assert s.contexts[c := s.contexts[c].(pc := Watching(tx, 0))] == s.contexts;
    } else {
      WatchesNinetyTimes(codec, s, c, tx, n - 1);
      assert Pending(c, n)[..|Pending(c, n)| - 1] == Pending(c, n - 1);
      WatchesOn(codec, s, c, tx, n - 1);
    }
  }

  // ---------------------------------------------------------------- an open outcome stays on record

  /** The journal says that the outcome under this hash is open. */
  predicate MarkedOpen(s: State, account: Address, hash: Bytes) {
    account in s.journal && s.journal[account].hash == hash && s.journal[account].uncertain
  }

  /** An answer that was an error leads to an entry that says so. */
  lemma ErrorIsRecorded(codec: Codec, s: State, c: nat)
    requires c in s.contexts && s.contexts[c].pc.Posted?
    ensures var tx := s.contexts[c].pc.tx;
            var answered := Perform(codec, s, c, Answer(false));
            && answered.Some? && answered.value.contexts[c].pc == Uncertain(tx)
            && Perform(codec, answered.value, c, PersistAgain).Some?
            && MarkedOpen(Perform(codec, answered.value, c, PersistAgain).value, s.contexts[c].account, tx.record.hash)
  {
  }

  /** And in every run in which the lock is kept the entry says so until its receipt is final. */
  lemma OpenStaysOnRecord(codec: Codec, ids: set<nat>, events: seq<Event>, e: Event, account: Address)
    requires HarmlessRun(codec, Initial(ids), events) && Run(codec, Initial(ids), events).Some?
    requires var s := Run(codec, Initial(ids), events).value;
             account in s.journal && s.journal[account].uncertain && Next(codec, s, e).Some?
    ensures var s := Run(codec, Initial(ids), events).value;
            var s' := Next(codec, s, e).value;
            s.journal[account].hash in s'.final || MarkedOpen(s', account, s.journal[account].hash)
  {
    EveryRunKeepsInvariant(codec, ids, events);
    hide Run, Perform;
    var s := Run(codec, Initial(ids), events).value;
    if e.Step? {
      assert ContextOk(s, e.c);
      StepKeepsOpen(codec, s, e.c, e.act, account);
    }
  }

  lemma StepKeepsOpen(codec: Codec, s: State, c: nat, act: Act, account: Address)
    requires c in s.contexts && Perform(codec, s, c, act).Some? && Knows(s, s.contexts[c].account, s.contexts[c].pc)
    requires account in s.journal && s.journal[account].uncertain
    ensures var s' := Perform(codec, s, c, act).value;
            s.journal[account].hash in s'.final || MarkedOpen(s', account, s.journal[account].hash)
  {
    hide PrepareCall, CheckCall, ReceiptOutcome;
  }
}

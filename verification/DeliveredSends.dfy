/** A send that meets every check goes through: it is posted, and once its receipt is final the journal and the lock are
    free again. */
module DeliveredSends {
  import opened Bytes
  import opened FramePayload
  import opened PostedCalls
  import opened SendProtocol
  import opened Wrappers

  // ---------------------------------------------------------------- which requests pass

  /** One and a half times the estimate, and at least 250000. */
  function PaddedEstimate(estimated: nat): nat {
    if 3 * estimated < 500002 then 250000 else 3 * estimated / 2
  }

  function FeeReserve(o: Origin): nat {
    (1500000 + 2 * PaddedEstimate(o.at.estimated) + 40 * |o.req.data|) * (2 * o.at.baseFee + 1000000000)
  }

  /** What the node, the clock and the user must have said before and after the signature. */
  predicate Acceptable(codec: Codec, account: Address, o: Origin) {
    && codec.addressOf(o.key) == account && o.signed.key == o.key && |o.signed.signature| == 6176
    && o.at.trusted && o.checkedAt.trusted && o.checkedAt.simulates
    && o.checkedAt.nonce == o.at.nonce && o.checkedAt.deployed == o.at.deployed && o.checkedAt.now - o.at.now <= 240000
    && |o.req.data| <= 45000 && o.at.baseFee <= 1000000000 && PaddedEstimate(o.at.estimated) <= 5000000
    && (o.req.expectedNonce.Some? ==> o.req.expectedNonce.value == o.at.nonce)
    && (o.req.reviewed.Some? ==>
          o.at.now - o.req.reviewed.value.at <= 240000 && FeeReserve(o) <= o.req.reviewed.value.feeReserve)
    && o.at.balance >= o.req.value + FeeReserve(o) && o.checkedAt.balance >= o.req.value + FeeReserve(o)
  }

  lemma QuotedExactlyWhen(codec: Codec, account: Address, o: Origin)
    ensures QuoteFor(codec, account, o).Some? <==>
              && codec.addressOf(o.key) == account && o.at.trusted
              && |o.req.data| <= 45000 && o.at.baseFee <= 1000000000 && PaddedEstimate(o.at.estimated) <= 5000000
              && (o.req.expectedNonce.Some? ==> o.req.expectedNonce.value == o.at.nonce)
              && (o.req.reviewed.Some? ==>
                    o.at.now - o.req.reviewed.value.at <= 240000 && FeeReserve(o) <= o.req.reviewed.value.feeReserve)
              && o.at.balance >= o.req.value + FeeReserve(o)
    ensures QuoteFor(codec, account, o).Some? ==> QuoteFor(codec, account, o).value.price.feeReserve == FeeReserve(o)
  {
    hide SigningHash, BuildTransfer;
  }

  /** A request comes as far as the journal exactly when it is acceptable. */
  lemma CheckedExactlyWhen(codec: Codec, account: Address, o: Origin)
    ensures TxFor(codec, account, o).Some? <==> Acceptable(codec, account, o)
    ensures Acceptable(codec, account, o) ==> QuoteFor(codec, account, o).Some?
  {
    QuotedExactlyWhen(codec, account, o);
    hide SigningHash, FeeReserve, PaddedEstimate, QuoteCall;
  }

  // ---------------------------------------------------------------- the run of a send

  lemma {:induction false} RunFront(codec: Codec, s: State, e: Event, rest: seq<Event>)
    requires Next(codec, s, e).Some?
    ensures Run(codec, s, [e] + rest) == Run(codec, Next(codec, s, e).value, rest)
  {
    hide Next;
    var all := [e] + rest;
    if |rest| == 0 {
      assert all[..0] == [] && Run(codec, s, []) == Some(s);
    } else {
      RunFront(codec, s, e, rest[..|rest| - 1]);
      assert all[..|all| - 1] == [e] + rest[..|rest| - 1];
    }
  }

  lemma RunOne(codec: Codec, s: State, e: Event)
    ensures Run(codec, s, [e]) == Next(codec, s, e)
  {
    assert [e][..0] == [] && Run(codec, s, []) == Some(s);
  }

  /** Context `c` holds the lock and has come as far as `pc`; all else is as in `s`. */
  function At(s: State, c: nat, account: Address, pc: Pc): State {
    s.(lock := Some(c), contexts := s.contexts[c := Context(account, pc)])
  }

  lemma GotoAt(s: State, c: nat, account: Address, pc: Pc, pc': Pc)
    ensures Goto(At(s, c, account, pc), c, pc') == At(s, c, account, pc')
  {
    assert s.contexts[c := Context(account, pc)][c := Context(account, pc')] == s.contexts[c := Context(account, pc')];
  }

  /** Up to the signature. */
  function Preparing(o: Origin, account: Address): seq<Event> {
    [Step(o.c, Acquire(account))] + ([Step(o.c, ReadJournal)] + [Step(o.c, Prepare(o.key, o.req, o.at))])
  }

  lemma PreparingRuns(codec: Codec, s: State, account: Address, o: Origin)
    requires o.c in s.contexts && s.lock.None? && s.contexts[o.c].pc.Idle? && account !in s.journal
    requires QuoteFor(codec, account, o).Some?
    ensures Run(codec, s, Preparing(o, account))
         == Some(At(s, o.c, account, Quoted(QuoteFor(codec, account, o).value)))
  {
    hide PrepareCall, CheckCall, Run, Goto;
    var c, quote := o.c, QuoteFor(codec, account, o).value;
    GotoAt(s, c, account, Entered, Vacant);
    GotoAt(s, c, account, Vacant, Quoted(quote));
    RunOne(codec, At(s, c, account, Vacant), Step(c, Prepare(o.key, o.req, o.at)));
    RunFront(codec, At(s, c, account, Entered), Step(c, ReadJournal), [Step(c, Prepare(o.key, o.req, o.at))]);
    RunFront(codec, s, Step(c, Acquire(account)), [Step(c, ReadJournal)] + [Step(c, Prepare(o.key, o.req, o.at))]);
  }

  function Signing(o: Origin): seq<Event> {
    [Step(o.c, Sign(o.signed))] + [Step(o.c, Check(o.checkedAt))]
  }

  lemma SigningRuns(codec: Codec, s: State, account: Address, o: Origin)
    requires o.c in s.contexts && TxFor(codec, account, o).Some?
    ensures var quote := QuoteFor(codec, account, o).value;
            Run(codec, At(s, o.c, account, Quoted(quote)), Signing(o))
            == Some(At(s.(signatures := s.signatures + {(quote.digest, o.signed.signature)}), o.c, account,
                   Ready(TxFor(codec, account, o).value)))
  {
    hide PrepareCall, CheckCall, Run, Goto;
    var c, quote, tx := o.c, QuoteFor(codec, account, o).value, TxFor(codec, account, o).value;
    var s' := s.(signatures := s.signatures + {(quote.digest, o.signed.signature)});
    GotoAt(s, c, account, Quoted(quote), SignedUp(quote, o.signed));
    GotoAt(s', c, account, SignedUp(quote, o.signed), Ready(tx));
    RunOne(codec, At(s', c, account, SignedUp(quote, o.signed)), Step(c, Check(o.checkedAt)));
    RunFront(codec, At(s, c, account, Quoted(quote)), Step(c, Sign(o.signed)), [Step(c, Check(o.checkedAt))]);
  }

  function Posting(c: nat): seq<Event> {
    [Step(c, Persist)] + ([Step(c, Announce)] + [Step(c, Post)])
  }

  lemma PostingRuns(codec: Codec, s: State, account: Address, c: nat, tx: Tx)
    requires c in s.contexts
    ensures Run(codec, At(s, c, account, Ready(tx)), Posting(c))
         == Some(At(s.(journal := s.journal[account := tx.record], posted := s.posted + {tx}), c, account, Posted(tx)))
  {
    hide PrepareCall, CheckCall, Run, Goto;
    var s' := s.(journal := s.journal[account := tx.record]);
    GotoAt(s, c, account, Ready(tx), Journalled(tx));
    GotoAt(s', c, account, Journalled(tx), Announced(tx));
    GotoAt(s', c, account, Announced(tx), Posted(tx));
    RunOne(codec, At(s', c, account, Announced(tx)), Step(c, Post));
    RunFront(codec, At(s', c, account, Journalled(tx)), Step(c, Announce), [Step(c, Post)]);
    RunFront(codec, At(s, c, account, Ready(tx)), Step(c, Persist), [Step(c, Announce)] + [Step(c, Post)]);
  }

  lemma {:induction false} RunComposes(codec: Codec, s: State, a: seq<Event>, b: seq<Event>)
    requires Run(codec, s, a).Some?
    ensures Run(codec, s, a + b) == Run(codec, Run(codec, s, a).value, b)
  {
    hide Next;
    if |b| == 0 {
      assert a + b == a;
    } else {
      RunComposes(codec, s, a, b[..|b| - 1]);
      assert (a + b)[..|a + b| - 1] == a + b[..|b| - 1];
    }
  }

  /** Every acceptable request of an account whose journal is empty is posted by a context that finds the lock free,
      with its record in the journal and nothing else changed but what was signed. */
  lemma AcceptableIsPosted(codec: Codec, s: State, account: Address, o: Origin)
    requires o.c in s.contexts && s.lock.None? && s.contexts[o.c].pc.Idle? && account !in s.journal
    requires Acceptable(codec, account, o)
    ensures TxFor(codec, account, o).Some?
    ensures var tx := TxFor(codec, account, o).value;
            var signed := (QuoteFor(codec, account, o).value.digest, o.signed.signature);
            Run(codec, s, Preparing(o, account) + Signing(o) + Posting(o.c))
            == Some(At(s.(signatures := s.signatures + {signed}, journal := s.journal[account := tx.record],
                       posted := s.posted + {tx}), o.c, account, Posted(tx)))
  {
    CheckedExactlyWhen(codec, account, o);
    hide Run, QuoteFor, TxFor, Acceptable, Preparing, Signing, Posting;
    PreparingRuns(codec, s, account, o);
    SigningRuns(codec, s, account, o);
    var signed := (QuoteFor(codec, account, o).value.digest, o.signed.signature);
    PostingRuns(codec, s.(signatures := s.signatures + {signed}), account, o.c, TxFor(codec, account, o).value);
    RunComposes(codec, s, Preparing(o, account), Signing(o));
    RunComposes(codec, s, Preparing(o, account) + Signing(o), Posting(o.c));
  }

  // ---------------------------------------------------------------- its end

  function Deciding(c: nat, receipt: Receipt): seq<Event> {
    [Step(c, Answer(true))] + [Step(c, Watch(Some(receipt)))]
  }

  function Clearing(c: nat): seq<Event> {
    [Step(c, ClearEntry)] + [Step(c, Release(true))]
  }

  lemma WatchingRuns(codec: Codec, s: State, account: Address, c: nat, tx: Tx, receipt: Receipt)
    requires c in s.contexts
    requires var outcome := ReceiptOutcome(Some(receipt), tx.record);
             outcome == Some(Confirmed) || outcome == Some(Failed)
    ensures Run(codec, At(s, c, account, Posted(tx)), Deciding(c, receipt))
         == Some(At(s.(final := s.final + {tx.record.hash}), c, account, Settled(tx)))
  {
    hide PrepareCall, CheckCall, Run, Goto, ReceiptOutcome;
    GotoAt(s, c, account, Posted(tx), Watching(tx, 0));
    GotoAt(s, c, account, Watching(tx, 0), Settled(tx));
    RunOne(codec, At(s, c, account, Watching(tx, 0)), Step(c, Watch(Some(receipt))));
    RunFront(codec, At(s, c, account, Posted(tx)), Step(c, Answer(true)), [Step(c, Watch(Some(receipt)))]);
  }

  lemma ClearingRuns(codec: Codec, s: State, account: Address, c: nat, tx: Tx)
    requires c in s.contexts
    ensures Run(codec, At(s, c, account, Settled(tx)), Clearing(c))
         == Some(At(s.(journal := s.journal - {account}), c, account, Idle).(lock := None))
  {
    hide PrepareCall, CheckCall, Run, Goto;
    var cleared := s.(journal := s.journal - {account});
    GotoAt(s, c, account, Settled(tx), Leaving);
    GotoAt(cleared, c, account, Leaving, Idle);
    RunOne(codec, At(cleared, c, account, Leaving), Step(c, Release(true)));
    RunFront(codec, At(s, c, account, Settled(tx)), Step(c, ClearEntry), [Step(c, Release(true))]);
  }

  /** A receipt that decides a posted transaction takes its entry out of the journal and frees the lock. */
  lemma DecidedIsFinished(codec: Codec, s: State, account: Address, c: nat, tx: Tx, receipt: Receipt)
    requires c in s.contexts
    requires var outcome := ReceiptOutcome(Some(receipt), tx.record);
             outcome == Some(Confirmed) || outcome == Some(Failed)
    ensures Run(codec, At(s, c, account, Posted(tx)), Deciding(c, receipt) + Clearing(c))
         == Some(At(s.(final := s.final + {tx.record.hash}, journal := s.journal - {account}), c, account, Idle)
                 .(lock := None))
  {
    hide Run, ReceiptOutcome, Deciding, Clearing;
    WatchingRuns(codec, s, account, c, tx, receipt);
    ClearingRuns(codec, s.(final := s.final + {tx.record.hash}), account, c, tx);
    RunComposes(codec, At(s, c, account, Posted(tx)), Deciding(c, receipt), Clearing(c));
  }

  /** And an entry of an earlier send goes as soon as its receipt is final, so the next send can start. */
  lemma DecidedMakesRoom(codec: Codec, s: State, account: Address, c: nat, receipt: Receipt)
    requires c in s.contexts && s.lock.None? && s.contexts[c].pc.Idle? && account in s.journal
    requires var outcome := ReceiptOutcome(Some(receipt), s.journal[account]);
             outcome == Some(Confirmed) || outcome == Some(Failed)
    ensures Run(codec, s, [Step(c, Acquire(account))] + ([Step(c, ReadJournal)]
                          + ([Step(c, Refresh(Some(receipt)))] + [Step(c, DropEntry)])))
         == Some(At(s.(final := s.final + {s.journal[account].hash}, journal := s.journal - {account}), c, account,
                Vacant))
  {
    hide PrepareCall, CheckCall, Run, Goto, ReceiptOutcome;
    var previous := s.journal[account];
    var seen := s.(final := s.final + {previous.hash});
    GotoAt(s, c, account, Entered, Resolving(previous));
    GotoAt(s, c, account, Resolving(previous), Superseded(previous));
    GotoAt(seen, c, account, Superseded(previous), Vacant);
    var refresh, drop := Step(c, Refresh(Some(receipt))), Step(c, DropEntry);
    RunOne(codec, At(seen, c, account, Superseded(previous)), drop);
    RunFront(codec, At(s, c, account, Resolving(previous)), refresh, [drop]);
    RunFront(codec, At(s, c, account, Entered), Step(c, ReadJournal), [refresh] + [drop]);
    RunFront(codec, s, Step(c, Acquire(account)), [Step(c, ReadJournal)] + ([refresh] + [drop]));
  }

  /** While it is not final, the send gives up without touching anything. */
  lemma OpenBlocks(codec: Codec, s: State, account: Address, c: nat, receipt: Option<Receipt>)
    requires c in s.contexts && s.lock.None? && s.contexts[c].pc.Idle? && account in s.journal
    requires var outcome := ReceiptOutcome(receipt, s.journal[account]); outcome.None? || outcome.value.Pending?
    ensures Run(codec, s, [Step(c, Acquire(account))] + ([Step(c, ReadJournal)] + [Step(c, Refresh(receipt))]))
         == Some(At(s, c, account, Leaving))
  {
    hide PrepareCall, CheckCall, Run, Goto, ReceiptOutcome;
    var previous := s.journal[account];
    GotoAt(s, c, account, Entered, Resolving(previous));
    GotoAt(s, c, account, Resolving(previous), Leaving);
    var refresh := Step(c, Refresh(receipt));
    RunOne(codec, At(s, c, account, Resolving(previous)), refresh);
    RunFront(codec, At(s, c, account, Entered), Step(c, ReadJournal), [refresh]);
    RunFront(codec, s, Step(c, Acquire(account)), [Step(c, ReadJournal)] + [refresh]);
  }
}

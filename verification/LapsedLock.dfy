/** What a send protocol run comes to when the lock is lost by a context that still works: from every stage of a
    send except the last, and for any two sends of the account, there is a run that ends with a posted transaction
    missing from the journal. */
module LapsedLock {
  import opened Bytes
  import opened FramePayload
  import opened SendProtocol
  import opened Wrappers

  /** The stages of a send, without what the context has in hand. */
  datatype Stage =
    | Resting | Entering | LookingUp | Overtaken | Cleared | Priced | HasSignature | Prepared | Recorded
    | Guarded | Sent | Doubtful | Observing | Final | Returning | Gone

  function StageOf(pc: Pc): Stage {
    match pc
    case Idle => Resting
    case Entered => Entering
    case Resolving(_) => LookingUp
    case Superseded(_) => Overtaken
    case Vacant => Cleared
    case Quoted(_) => Priced
    case SignedUp(_, _) => HasSignature
    case Ready(_) => Prepared
    case Journalled(_) => Recorded
    case Announced(_) => Guarded
    case Posted(_) => Sent
    case Uncertain(_) => Doubtful
    case Watching(_, _) => Observing
    case Settled(_) => Final
    case Leaving => Returning
    case Dead => Gone
  }

  // ---------------------------------------------------------------- two sends of one account

  /** One send: what is asked for, what the chain answers when it is priced and when it is checked, and what the
      signer hands back. */
  datatype Attempt = Attempt(key: Key, req: Request, before: Chain, signed: Signed, after: Chain)

  /** Two sends of one account. */
  datatype Pair = Pair(codec: Codec, account: Address, one: Attempt, two: Attempt)

  function QuoteOf(x: Pair, a: Attempt): Option<Quote> {
    PrepareCall(x.codec, x.account, a.key, a.req, a.before)
  }

  function Checked(x: Pair, a: Attempt): Option<Tx> {
    if QuoteOf(x, a).None? then None else CheckCall(x.codec, QuoteOf(x, a).value, a.signed, a.after)
  }

  /** Both are priced and pass their checks, and their transactions have different hashes. */
  predicate Sendable(x: Pair) {
    && Checked(x, x.one).Some? && Checked(x, x.two).Some?
    && Checked(x, x.one).value.record.hash != Checked(x, x.two).value.record.hash
  }

  lemma SentFromAccount(x: Pair, a: Attempt)
    requires Checked(x, a).Some?
    ensures Checked(x, a).value.payload.sender == x.account
  {
    hide SigningHash;
  }

  /** The send of nothing to nobody, by an account that can pay for it. */
  function Plain(key: Key, nonce: nat): Attempt {
    var at := Chain(4000000000000000, nonce, true, 0, 0, true, true, 0);
    Attempt(key, Request([], 0, [], None, None), at, Signed(key, Zeros(SIGNATURE_BYTES)), at)
  }

  ghost predicate TellsNonces(codec: Codec, nonce: nat, nonce': nat) {
    forall p: Payload, p': Payload :: p.nonce == nonce && p'.nonce == nonce' ==>
      codec.keccak(codec.encode(p)) != codec.keccak(codec.encode(p'))
  }

  /** The account of every key has such a pair, as long as hashing tells its two nonces apart. */
  lemma EveryKeyHasAPair(codec: Codec, key: Key, nonce: nat, nonce': nat)
    requires TellsNonces(codec, nonce, nonce')
    ensures Sendable(Pair(codec, codec.addressOf(key), Plain(key, nonce), Plain(key, nonce')))
  {
    var x := Pair(codec, codec.addressOf(key), Plain(key, nonce), Plain(key, nonce'));
    PlainGoes(x, key, nonce);
    PlainGoes(x, key, nonce');
    hide Checked;
  }

  lemma PlainGoes(x: Pair, key: Key, nonce: nat)
    requires x.account == x.codec.addressOf(key)
    ensures Checked(x, Plain(key, nonce)).Some?
    ensures var tx := Checked(x, Plain(key, nonce)).value;
            tx.payload.nonce == nonce && tx.record.hash == x.codec.keccak(x.codec.encode(tx.payload))
  {
    hide SigningHash;
  }

  function TxOne(x: Pair): Tx
    requires Sendable(x)
  {
    Checked(x, x.one).value
  }

  function TxTwo(x: Pair): Tx
    requires Sendable(x)
  {
    Checked(x, x.two).value
  }

  /** A receipt that settles a record: the transaction failed. */
  function FinalReceipt(record: Record): Option<Receipt> {
    Some(Receipt(record.hash, 6, Some(0), Some(0), None))
  }

  // ---------------------------------------------------------------- growing a run

  lemma Extend(x: Pair, s0: State, events: seq<Event>, s: State, e: Event)
    requires Run(x.codec, s0, events) == Some(s) && Next(x.codec, s, e).Some?
    ensures Run(x.codec, s0, events + [e]) == Next(x.codec, s, e)
  {
    assert (events + [e])[..|events|] == events;
  }

  /** One more step at the end of a run. */
  lemma Then(x: Pair, s0: State, events: seq<Event>, s: State, c: nat, act: Act) returns (longer: seq<Event>, s': State)
    requires Run(x.codec, s0, events) == Some(s)
    requires c in s.contexts && Perform(x.codec, s, c, act).Some?
    ensures Run(x.codec, s0, longer) == Some(s') && s' == Perform(x.codec, s, c, act).value
    ensures longer == events + [Step(c, act)]
  {
    hide Perform;
    longer, s' := events + [Step(c, act)], Perform(x.codec, s, c, act).value;
    Extend(x, s0, events, s, Step(c, act));
  }

  // ---------------------------------------------------------------- context 0, from entering to final

  const LAST: nat := 11

  /** Context 0 after `k` awaits of a send with nonce 0 that is answered by an error and then found final. */
  function PcAt(x: Pair, k: nat): Pc
    requires Sendable(x)
    requires 1 <= k <= LAST
  {
    var tx := TxOne(x);
    match k
    case 1 => Entered
    case 2 => Vacant
    case 3 => Quoted(QuoteOf(x, x.one).value)
    case 4 => SignedUp(QuoteOf(x, x.one).value, x.one.signed)
    case 5 => Ready(tx)
    case 6 => Journalled(tx)
    case 7 => Announced(tx)
    case 8 => Posted(tx)
    case 9 => Uncertain(tx)
    case 10 => Watching(tx, 0)
    case _ => Settled(tx)
  }

  function ActAt(x: Pair, k: nat): Act
    requires Sendable(x)
  {
    match k
    case 1 => ReadJournal
    case 2 => Prepare(x.one.key, x.one.req, x.one.before)
    case 3 => Sign(x.one.signed)
    case 4 => Check(x.one.after)
    case 5 => Persist
    case 6 => Announce
    case 7 => Post
    case 8 => Answer(false)
    case 9 => PersistAgain
    case _ => Watch(FinalReceipt(TxOne(x).record))
  }

  /** The state then, as far as it matters, with the lock as given: none of these awaits looks at it. */
  predicate IsAt(x: Pair, s: State, k: nat, lock: Option<nat>)
    requires Sendable(x)
  {
    && 1 <= k <= LAST && s.lock == lock && s.contexts.Keys == {0, 1}
    && s.contexts[0] == Context(x.account, PcAt(x, k)) && s.contexts[1] == Context([], Idle)
    && (if k < 6 then x.account !in s.journal else JournalHas(s, x.account, TxOne(x).record.hash))
    && s.final <= {TxOne(x).record.hash} && (k < LAST ==> s.final == {})
  }

  lemma OneAwait(x: Pair, s: State, k: nat, lock: Option<nat>)
    requires Sendable(x)
    requires k < LAST && IsAt(x, s, k, lock)
    ensures Perform(x.codec, s, 0, ActAt(x, k)).Some?
    ensures IsAt(x, Perform(x.codec, s, 0, ActAt(x, k)).value, k + 1, lock)
  {
    if k < 5 {
      EarlyAwait(x, s, k, lock);
    } else {
      LateAwait(x, s, k, lock);
    }
    hide Perform, IsAt, ActAt, Sendable;
  }

  /** Up to the checks, before anything is written. */
  lemma EarlyAwait(x: Pair, s: State, k: nat, lock: Option<nat>)
    requires Sendable(x)
    requires k < 5 && IsAt(x, s, k, lock)
    ensures Perform(x.codec, s, 0, ActAt(x, k)).Some?
    ensures IsAt(x, Perform(x.codec, s, 0, ActAt(x, k)).value, k + 1, lock)
  {
    hide PrepareCall, CheckCall, ReceiptOutcome;
  }

  lemma LateAwait(x: Pair, s: State, k: nat, lock: Option<nat>)
    requires Sendable(x)
    requires 5 <= k < LAST && IsAt(x, s, k, lock)
    ensures Perform(x.codec, s, 0, ActAt(x, k)).Some?
    ensures IsAt(x, Perform(x.codec, s, 0, ActAt(x, k)).value, k + 1, lock)
  {
    hide PrepareCall, CheckCall, Checked, QuoteOf;
  }

  lemma NothingHappened(x: Pair, s: State)
    ensures Run(x.codec, s, []) == Some(s)
  {
  }

  const START := Initial({0, 1})

  /** Context 0 enters the lock and comes to its `k`th await. */
  lemma {:induction false} WalkTo(x: Pair, k: nat) returns (run: seq<Event>, s: State)
    requires Sendable(x)
    requires 1 <= k <= LAST
    ensures Run(x.codec, START, run) == Some(s) && IsAt(x, s, k, Some(0)) && Lapse !in run
  {
    hide Run;
    if k == 1 {
      NothingHappened(x, START);
      run, s := Then(x, START, [], START, 0, Acquire(x.account));
    } else {
      hide Perform, IsAt;
      run, s := WalkTo(x, k - 1);
      OneAwait(x, s, k - 1, Some(0));
      HasContext(x, s, k - 1, Some(0));
      run, s := Then(x, START, run, s, 0, ActAt(x, k - 1));
    }
  }

  lemma HasContext(x: Pair, s: State, k: nat, lock: Option<nat>)
    requires Sendable(x)
    requires IsAt(x, s, k, lock)
    ensures 0 in s.contexts && s.lock == lock && IsAt(x, s.(lock := None), k, None)
  {
  }

  /** Without the lock it goes on to the end all the same. */
  lemma {:induction false} WalkOn(x: Pair, run: seq<Event>, s: State, k: nat) returns (more: seq<Event>, s': State)
    requires Sendable(x)
    requires Run(x.codec, START, run) == Some(s) && IsAt(x, s, k, None) && k <= LAST
    ensures Run(x.codec, START, run + more) == Some(s') && IsAt(x, s', LAST, None) && Lapse !in more
    decreases LAST - k
  {
    hide Run, Perform, IsAt;
    if k == LAST {
      more, s' := [], s;
      assert run + [] == run;
    } else {
      OneAwait(x, s, k, None);
      HasContext(x, s, k, None);
      var longer, next := Then(x, START, run, s, 0, ActAt(x, k));
      var rest;
      rest, s' := WalkOn(x, longer, next, k + 1);
      more := [Step(0, ActAt(x, k))] + rest;
      assert longer + rest == run + more;
    }
  }

  // ---------------------------------------------------------------- context 1, overtaking

  /** A free context takes the free lock and clears the way: the entry it finds turns out final. */
  lemma ClearTheWay(x: Pair, run: seq<Event>, s: State, record: Record) returns (longer: seq<Event>, s': State)
    requires Run(x.codec, START, run) == Some(s) && s.lock.None?
    requires 1 in s.contexts && s.contexts[1] == Context([], Idle)
    requires x.account in s.journal && s.journal[x.account] == record
    ensures Run(x.codec, START, longer) == Some(s') && run <= longer && (Lapse !in longer[|run|..])
    ensures s' == s.(lock := Some(1), contexts := s.contexts[1 := Context(x.account, Vacant)],
                     journal := s.journal - {x.account},
                     final := s.final + {record.hash})
  {
    hide Run, PrepareCall, CheckCall;
    longer, s' := Then(x, START, run, s, 1, Acquire(x.account));
    longer, s' := Then(x, START, longer, s', 1, ReadJournal);
    longer, s' := Then(x, START, longer, s', 1, Refresh(FinalReceipt(record)));
    longer, s' := Then(x, START, longer, s', 1, DropEntry);
  }

  lemma SignNext(x: Pair, run: seq<Event>, s: State) returns (longer: seq<Event>, s': State)
    requires Sendable(x)
    requires Run(x.codec, START, run) == Some(s) && 1 in s.contexts && s.contexts[1] == Context(x.account, Vacant)
    ensures Run(x.codec, START, longer) == Some(s') && run <= longer && (Lapse !in longer[|run|..])
    ensures s' == s.(contexts := s.contexts[1 := Context(x.account, Ready(TxTwo(x)))], signatures := s'.signatures)
  {
    hide Run, PrepareCall, CheckCall, ReceiptOutcome;
    longer, s' := Then(x, START, run, s, 1, Prepare(x.two.key, x.two.req, x.two.before));
    assert s' == s.(contexts := s.contexts[1 := Context(x.account, Quoted(QuoteOf(x, x.two).value))]);
    longer, s' := Then(x, START, longer, s', 1, Sign(x.two.signed));
    longer, s' := Then(x, START, longer, s', 1, Check(x.two.after));
  }

  lemma PostNext(x: Pair, run: seq<Event>, s: State) returns (longer: seq<Event>, s': State)
    requires Sendable(x)
    requires Run(x.codec, START, run) == Some(s)
    requires 1 in s.contexts && s.contexts[1] == Context(x.account, Ready(TxTwo(x)))
    ensures Run(x.codec, START, longer) == Some(s') && run <= longer && (Lapse !in longer[|run|..])
    ensures s' == s.(contexts := s.contexts[1 := Context(x.account, Posted(TxTwo(x)))],
                     journal := s.journal[x.account := TxTwo(x).record], posted := s.posted + {TxTwo(x)})
  {
    hide Run, PrepareCall, CheckCall, ReceiptOutcome;
    longer, s' := Then(x, START, run, s, 1, Persist);
    longer, s' := Then(x, START, longer, s', 1, Announce);
    longer, s' := Then(x, START, longer, s', 1, Post);
  }

  /** Context 1 resolves the entry that context 0 is about to clear, posts its own transaction, and loses its
      entry to context 0. */
  lemma Overtake(x: Pair, run: seq<Event>, s: State) returns (more: seq<Event>)
    requires Sendable(x)
    requires Run(x.codec, START, run) == Some(s) && s.lock.None?
    requires s.contexts.Keys == {0, 1} && s.contexts[1] == Context([], Idle) && s.contexts[0].account == x.account
    requires s.contexts[0].pc.Settled? || s.contexts[0].pc.Superseded?
    requires JournalHas(s, x.account, TxOne(x).record.hash) && s.final <= {TxOne(x).record.hash}
    ensures Run(x.codec, START, run + more).Some? && !Safe(Run(x.codec, START, run + more).value)
    ensures Lapse !in more
  {
    hide Run, PrepareCall, CheckCall, ReceiptOutcome;
    var long, s' := ClearTheWay(x, run, s, s.journal[x.account]);
    var long1, s1 := SignNext(x, long, s');
    var long2, s2 := PostNext(x, long1, s1);
    var act := if s.contexts[0].pc.Settled? then ClearEntry else DropEntry;
    var long3, s3 := Then(x, START, long2, s2, 0, act);
    more := long3[|run|..];
    assert run + more == long3;
    SentFromAccount(x, x.two);
    assert Unresolved(s3, TxTwo(x)) && !JournalHas(s3, x.account, TxTwo(x).record.hash);
  }

  // ---------------------------------------------------------------- from which stages

  predicate WorkingStage(stage: Stage) {
    stage != Resting && stage != Returning && stage != Gone
  }

  /** `pre` brings the holder of the lock to `stage`, it loses the lock, and `post` ends unsafe. */
  predicate Breaks(x: Pair, stage: Stage, pre: seq<Event>, post: seq<Event>) {
    var before, after := Run(x.codec, START, pre), Run(x.codec, START, pre + [Lapse] + post);
    && Lapse !in pre && Lapse !in post
    && before.Some? && before.value.lock.Some? && before.value.lock.value in before.value.contexts
    && StageOf(before.value.contexts[before.value.lock.value].pc) == stage
    && after.Some? && !Safe(after.value)
  }

  /** At the `k`th await of a send with an empty journal. */
  lemma BreaksAlongTheWay(x: Pair, k: nat) returns (pre: seq<Event>, post: seq<Event>)
    requires Sendable(x)
    requires 1 <= k <= LAST
    ensures Breaks(x, StageOf(PcAt(x, k)), pre, post)
  {
    hide Run, Perform, PcAt, Safe;
    var s;
    pre, s := WalkTo(x, k);
    Extend(x, START, pre, s, Lapse);
    HasContext(x, s, k, Some(0));
    var more, s' := WalkOn(x, pre + [Lapse], s.(lock := None), k);
    LastIsSettled(x);
    var rest := Overtake(x, pre + [Lapse] + more, s');
    post := more + rest;
    assert pre + [Lapse] + more + rest == pre + [Lapse] + post;
  }

  lemma LastIsSettled(x: Pair)
    requires Sendable(x)
    ensures PcAt(x, LAST).Settled? && PcAt(x, 10).Watching?
  {
  }

  /** Context 0 gives up watching, leaves, and comes back to find its own entry. */
  lemma ComeBack(x: Pair) returns (run: seq<Event>, s: State)
    requires Sendable(x)
    ensures Run(x.codec, START, run) == Some(s) && Lapse !in run
    ensures s.lock == Some(0) && s.contexts.Keys == {0, 1} && s.contexts[1] == Context([], Idle) && s.final == {}
    ensures JournalHas(s, x.account, TxOne(x).record.hash)
    ensures s.contexts[0] == Context(x.account, Resolving(s.journal[x.account]))
  {
    LastIsSettled(x);
    hide Run, PrepareCall, CheckCall, ReceiptOutcome, PcAt;
    run, s := WalkTo(x, 10);
    run, s := GiveUp(x, run, s);
    run, s := Then(x, START, run, s, 0, Acquire(x.account));
    run, s := Then(x, START, run, s, 0, ReadJournal);
  }

  lemma GiveUp(x: Pair, run: seq<Event>, s: State) returns (longer: seq<Event>, s': State)
    requires Run(x.codec, START, run) == Some(s) && Lapse !in run
    requires s.lock == Some(0) && 0 in s.contexts && s.contexts[0].pc.Watching?
    ensures Run(x.codec, START, longer) == Some(s') && Lapse !in longer
    ensures s' == s.(lock := None, contexts := s.contexts[0 := s.contexts[0].(pc := Idle)])
  {
    hide Run, PrepareCall, CheckCall, ReceiptOutcome;
    longer, s' := Then(x, START, run, s, 0, Fail);
    longer, s' := Then(x, START, longer, s', 0, Release(true));
  }

  /** Context 0 sees its earlier entry final. */
  lemma SeeFinal(x: Pair, run: seq<Event>, s: State) returns (longer: seq<Event>, s': State)
    requires Run(x.codec, START, run) == Some(s) && x.account in s.journal && 0 in s.contexts
    requires s.contexts[0] == Context(x.account, Resolving(s.journal[x.account]))
    ensures longer == run + [Step(0, Refresh(FinalReceipt(s.journal[x.account])))]
    ensures Run(x.codec, START, longer) == Some(s')
    ensures var record := s.journal[x.account];
            s' == s.(contexts := s.contexts[0 := Context(x.account, Superseded(record))],
                     final := s.final + {record.hash})
  {
    hide Run, PrepareCall, CheckCall;
    longer, s' := Then(x, START, run, s, 0, Refresh(FinalReceipt(s.journal[x.account])));
  }

  lemma BreaksLookingUp(x: Pair) returns (pre: seq<Event>, post: seq<Event>)
    requires Sendable(x)
    ensures Breaks(x, LookingUp, pre, post)
  {
    hide Run, Perform, Sendable, Safe;
    var s;
    pre, s := ComeBack(x);
    Extend(x, START, pre, s, Lapse);
    var long, s' := SeeFinal(x, pre + [Lapse], s.(lock := None));
    var rest := Overtake(x, long, s');
    post := [Step(0, Refresh(FinalReceipt(s.journal[x.account])))] + rest;
    assert long + rest == pre + [Lapse] + post;
  }

  lemma BreaksOvertaken(x: Pair) returns (pre: seq<Event>, post: seq<Event>)
    requires Sendable(x)
    ensures Breaks(x, Overtaken, pre, post)
  {
    hide Run, Perform, Sendable, Safe;
    var s;
    pre, s := ComeBack(x);
    pre, s := SeeFinal(x, pre, s);
    Extend(x, START, pre, s, Lapse);
    post := Overtake(x, pre + [Lapse], s.(lock := None));
  }

  /** A lapse can end unsafe from every stage but the last, in which the lock is only given back. */
  lemma LapseBreaksExactlyAt(x: Pair, stage: Stage)
    requires Sendable(x)
    ensures (exists pre, post :: Breaks(x, stage, pre, post)) <==> WorkingStage(stage)
  {
    hide Breaks, PcAt, StageOf, IndexOf;
    if stage == LookingUp {
      var pre, post := BreaksLookingUp(x);
    } else if stage == Overtaken {
      var pre, post := BreaksOvertaken(x);
    } else if WorkingStage(stage) {
      IndexIsRight(x, stage);
      var pre, post := BreaksAlongTheWay(x, IndexOf(stage));
    } else {
      forall pre, post ensures !Breaks(x, stage, pre, post) {
        LastStageIsHarmless(x, stage, pre, post);
      }
    }
  }

  function IndexOf(stage: Stage): (k: nat)
    ensures 1 <= k <= LAST
  {
    match stage
    case Entering => 1
    case Cleared => 2
    case Priced => 3
    case HasSignature => 4
    case Prepared => 5
    case Recorded => 6
    case Guarded => 7
    case Sent => 8
    case Doubtful => 9
    case Observing => 10
    case _ => 11
  }

  lemma IndexIsRight(x: Pair, stage: Stage)
    requires Sendable(x)
    requires WorkingStage(stage) && stage != LookingUp && stage != Overtaken
    ensures StageOf(PcAt(x, IndexOf(stage))) == stage
  {
    hide CheckCall, PrepareCall;
  }

  lemma {:induction false} StaysHarmless(x: Pair, events: seq<Event>, more: seq<Event>)
    requires HarmlessRun(x.codec, START, events) && Lapse !in more
    requires Run(x.codec, START, events + more).Some?
    ensures HarmlessRun(x.codec, START, events + more)
  {
    hide Next;
    if |more| == 0 {
      assert events + more == events;
    } else {
      var n := |more| - 1;
      assert (events + more)[..|events| + n] == events + more[..n] && more[n] in more;
      StaysHarmless(x, events, more[..n]);
    }
  }

  lemma LastStageIsHarmless(x: Pair, stage: Stage, pre: seq<Event>, post: seq<Event>)
    requires !WorkingStage(stage)
    ensures !Breaks(x, stage, pre, post)
  {
    if Breaks(x, stage, pre, post) {
      var s := Run(x.codec, START, pre).value;
      assert Harmless(s, Lapse);
      assert [] + pre == pre;
      hide Perform, Safe;
      StaysHarmless(x, [], pre);
      assert (pre + [Lapse])[..|pre|] == pre;
      assert HarmlessRun(x.codec, START, pre + [Lapse]);
      StaysHarmless(x, pre + [Lapse], post);
      UnresolvedIsJournalled(x.codec, {0, 1}, pre + [Lapse] + post);
    }
  }
}

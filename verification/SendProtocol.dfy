/** Sending a transaction: any number of wallet contexts share one signing lock and one journal entry per
    account, and each may fail or die at any await. What they post stays accounted for in the journal. */
module SendProtocol {
  import opened Bytes
  import opened FramePayload
  import opened Wrappers

  /** How far a context has come inside one send. */
  datatype Pc =
    | Idle
    | Entered                          // holds the lock, journal not read yet
    | Resolving(previous: Record)      // the journal named an earlier submission
    | Superseded(previous: Record)     // its receipt is final, the entry is about to go
    | Vacant                           // the journal is known to hold nothing for the account
    | Quoted(quote: Quote)
    | SignedUp(quote: Quote, signed: Signed)
    | Ready(tx: Tx)                    // all checks passed, nothing written yet
    | Journalled(tx: Tx)               // the record is durable
    | Announced(tx: Tx)                // the history row is written, the guard has passed
    | Posted(tx: Tx)                   // the request has left
    | Uncertain(tx: Tx)                // the answer was an error
    | Watching(tx: Tx, attempt: nat)
    | Settled(tx: Tx)                  // a final receipt was seen, the entry is about to go
    | Leaving                          // about to give the lock back
    | Dead

  datatype Context = Context(account: Address, pc: Pc)

  datatype State = State(lock: Option<nat>, contexts: map<nat, Context>, journal: map<Address, Record>,
                         posted: set<Tx>, final: set<Bytes>, signatures: set<(Bytes, Bytes)>)

  /** The awaits of a send, with what the outside world answers at each. */
  datatype Act =
    | Acquire(account: Address)
    | ReadJournal
    | Refresh(receipt: Option<Receipt>)
    | DropEntry
    | Prepare(key: Key, req: Request, at: Chain)
    | Sign(signed: Signed)
    | Check(at: Chain)
    | Persist
    | Announce
    | Post
    | Answer(accepted: bool)
    | PersistAgain
    | Watch(receipt: Option<Receipt>)
    | ClearEntry
    | Release(delivered: bool)
    | Fail
    | Crash

  /** `Lapse` frees the lock, whoever holds it: the lease runs out, or is wiped. */
  datatype Event = Step(c: nat, act: Act) | Lapse

  const ATTEMPTS: nat := 90

  predicate InLock(pc: Pc) {
    !pc.Idle? && !pc.Dead?
  }

  /** Inside the lock with something left to do but giving it back. */
  predicate Working(pc: Pc) {
    InLock(pc) && !pc.Leaving?
  }

  function Initial(ids: set<nat>): State {
    State(None, map c | c in ids :: Context([], Idle), map[], {}, {}, {})
  }

  function Goto(s: State, c: nat, pc: Pc): State
    requires c in s.contexts
  {
    s.(contexts := s.contexts[c := s.contexts[c].(pc := pc)])
  }

  /** One await of context `c`; `None` when it is not the one that comes next. */
  function Perform(codec: Codec, s: State, c: nat, act: Act): Option<State>
    requires c in s.contexts
  {
    var account := s.contexts[c].account;
    match (s.contexts[c].pc, act)
    case (Idle, Acquire(a)) =>
      if s.lock.Some? then None
      else Some(s.(lock := Some(c), contexts := s.contexts[c := Context(a, Entered)]))
    case (Entered, ReadJournal) =>
      Some(Goto(s, c, if account in s.journal then Resolving(s.journal[account]) else Vacant))
    case (Resolving(previous), Refresh(receipt)) =>
      var outcome := ReceiptOutcome(receipt, previous);
      if outcome.None? || outcome.value.Pending? then Some(Goto(s, c, Leaving))
      else Some(Goto(s, c, Superseded(previous)).(final := s.final + {previous.hash}))
    case (Superseded(previous), DropEntry) =>
      Some(Goto(s, c, Vacant).(journal := s.journal - {account}))
    case (Vacant, Prepare(key, req, at)) =>
      var quote := PrepareCall(codec, account, key, req, at);
      Some(Goto(s, c, if quote.None? then Leaving else Quoted(quote.value)))
    case (Quoted(quote), Sign(signed)) =>
      Some(Goto(s, c, SignedUp(quote, signed)).(signatures := s.signatures + {(quote.digest, signed.signature)}))
    case (SignedUp(quote, signed), Check(at)) =>
      var tx := CheckCall(codec, quote, signed, at);
      Some(Goto(s, c, if tx.None? then Leaving else Ready(tx.value)))
    case (Ready(tx), Persist) =>
      Some(Goto(s, c, Journalled(tx)).(journal := s.journal[account := tx.record]))
    case (Journalled(tx), Announce) => Some(Goto(s, c, Announced(tx)))
    case (Announced(tx), Post) =>
      Some(Goto(s, c, Posted(tx)).(posted := s.posted + {tx}))
    case (Posted(tx), Answer(accepted)) =>
      Some(Goto(s, c, if accepted then Watching(tx, 0) else Uncertain(tx)))
    case (Uncertain(tx), PersistAgain) =>
      Some(Goto(s, c, Watching(tx, 0)).(journal := s.journal[account := tx.record.(uncertain := true)]))
    case (Watching(tx, attempt), Watch(receipt)) =>
      var outcome := ReceiptOutcome(receipt, tx.record);
      if outcome.None? then Some(Goto(s, c, Leaving))
      else if outcome.value.Pending? then Some(Goto(s, c,
          if attempt + 1 < ATTEMPTS then Watching(tx, attempt + 1) else Leaving))
      else Some(Goto(s, c, Settled(tx)).(final := s.final + {tx.record.hash}))
    case (Settled(tx), ClearEntry) =>
      Some(Goto(s, c, Leaving).(journal := s.journal - {account}))
    case (Leaving, Release(delivered)) =>
      Some(Goto(s, c, Idle).(lock := if delivered && s.lock == Some(c) then None else s.lock))
    case (pc, Fail) => if InLock(pc) then Some(Goto(s, c, Leaving)) else None
    case (pc, Crash) => Some(Goto(s, c, Dead))
    case _ => None
  }

  function Next(codec: Codec, s: State, e: Event): Option<State> {
    match e
    case Step(c, act) => if c in s.contexts then Perform(codec, s, c, act) else None
    case Lapse => if s.lock.Some? then Some(s.(lock := None)) else None
  }

  /** No run is left out for want of failures: any context may die in any state, one inside the lock may fail there,
      and a lock that is held may be lost. */
  lemma MayFailAnywhere(codec: Codec, s: State, c: nat)
    requires c in s.contexts
    ensures Next(codec, s, Step(c, Crash)) == Some(Goto(s, c, Dead))
    ensures !s.contexts[c].pc.Idle? && !s.contexts[c].pc.Dead? ==>
              Next(codec, s, Step(c, Fail)) == Some(Goto(s, c, Leaving))
    ensures s.lock.Some? ==> Next(codec, s, Lapse) == Some(s.(lock := None))
  {
    hide PrepareCall, CheckCall, ReceiptOutcome;
  }

  /** The state after a run, if every event of it could happen in turn. */
  function Run(codec: Codec, s: State, events: seq<Event>): Option<State> {
    if |events| == 0 then Some(s)
    else
      var before := Run(codec, s, events[..|events| - 1]);
      if before.None? then None else Next(codec, before.value, events[|events| - 1])
  }

  // ---------------------------------------------------------------- what a context knows by itself

  /** What a context has in hand, whatever happens to the lock and the journal. */
  ghost predicate OwnOk(codec: Codec, account: Address, pc: Pc, signatures: set<(Bytes, Bytes)>) {
    match pc
    case Quoted(quote) => QuoteOk(codec, account, quote)
    case SignedUp(quote, signed) => QuoteOk(codec, account, quote) && (quote.digest, signed.signature) in signatures
    case Ready(tx) => TxOk(codec, account, tx, signatures)
    case Journalled(tx) => TxOk(codec, account, tx, signatures)
    case Announced(tx) => TxOk(codec, account, tx, signatures)
    case _ => true
  }

  ghost predicate AllOwnOk(codec: Codec, s: State) {
    && (forall c :: c in s.contexts ==> OwnOk(codec, s.contexts[c].account, s.contexts[c].pc, s.signatures))
    && (forall tx :: tx in s.posted ==> TxOk(codec, tx.payload.sender, tx, s.signatures))
  }

  lemma TxOkGrows(codec: Codec, account: Address, tx: Tx, less: set<(Bytes, Bytes)>, more: set<(Bytes, Bytes)>)
    requires TxOk(codec, account, tx, less) && less <= more
    ensures TxOk(codec, account, tx, more) && tx.payload.sender == account
  {
  }

  lemma OwnOkGrows(codec: Codec, account: Address, pc: Pc, less: set<(Bytes, Bytes)>, more: set<(Bytes, Bytes)>)
    requires OwnOk(codec, account, pc, less) && less <= more
    ensures OwnOk(codec, account, pc, more)
  {
    hide TxOk, QuoteOk;
    if pc.Ready? || pc.Journalled? || pc.Announced? { TxOkGrows(codec, account, pc.tx, less, more); }
  }

  lemma PreparedIsOk(codec: Codec, account: Address, key: Key, req: Request, at: Chain)
    requires PrepareCall(codec, account, key, req, at).Some?
    ensures QuoteOk(codec, account, PrepareCall(codec, account, key, req, at).value)
  {
  }

  /** The context that moves has in hand afterwards what it should. */
  lemma MoverOwnOk(codec: Codec, s: State, c: nat, act: Act)
    requires c in s.contexts && Perform(codec, s, c, act).Some?
    requires OwnOk(codec, s.contexts[c].account, s.contexts[c].pc, s.signatures)
    ensures var s' := Perform(codec, s, c, act).value; OwnOk(codec, s'.contexts[c].account, s'.contexts[c].pc,
        s'.signatures)
  {
    hide PrepareCall, CheckCall, ReceiptOutcome, TxOk, QuoteOk;
    var account := s.contexts[c].account;
    match act
    case Prepare(key, req, at) =>
      if PrepareCall(codec, account, key, req, at).Some? { PreparedIsOk(codec, account, key, req, at); }
    case Check(at) =>
      var pc := s.contexts[c].pc;
      if CheckCall(codec, pc.quote, pc.signed, at).Some? {
        CheckedTxIsOk(codec, account, pc.quote, pc.signed, at, s.signatures);
      }
    case _ =>
  }

  /** What a step may touch: the shared state only inside the lock, other contexts never, and the sets of
      what was signed, posted and seen final only ever grow. */
  lemma FrameOfStep(codec: Codec, s: State, c: nat, act: Act)
    requires c in s.contexts && Perform(codec, s, c, act).Some?
    ensures var s' := Perform(codec, s, c, act).value;
            && s'.contexts.Keys == s.contexts.Keys
            && (forall d :: d in s.contexts && d != c ==> s'.contexts[d] == s.contexts[d])
            && s.signatures <= s'.signatures && s.final <= s'.final && s.posted <= s'.posted
            && (Working(s.contexts[c].pc) || s.lock.None?
                || (s.journal == s'.journal && (s.lock == s'.lock || s.lock == Some(c))))
  {
    hide PrepareCall, CheckCall, ReceiptOutcome;
  }

  /** The only transaction a step posts is the one its context has announced. */
  lemma PostsOnlyAnnounced(codec: Codec, s: State, c: nat, act: Act)
    requires c in s.contexts && Perform(codec, s, c, act).Some?
    ensures var s' := Perform(codec, s, c, act).value;
            forall tx :: tx in s'.posted ==> tx in s.posted || s.contexts[c].pc == Announced(tx)
  {
    hide PrepareCall, CheckCall, ReceiptOutcome;
  }

  lemma StepKeepsOwn(codec: Codec, s: State, c: nat, act: Act)
    requires AllOwnOk(codec, s) && c in s.contexts && Perform(codec, s, c, act).Some?
    ensures AllOwnOk(codec, Perform(codec, s, c, act).value)
  {
    var s' := Perform(codec, s, c, act).value;
    FrameOfStep(codec, s, c, act);
    PostsOnlyAnnounced(codec, s, c, act);
    MoverOwnOk(codec, s, c, act);
    hide Perform, TxOk, QuoteOk;
    forall d | d in s'.contexts ensures OwnOk(codec, s'.contexts[d].account, s'.contexts[d].pc, s'.signatures) {
      if d != c { OwnOkGrows(codec, s.contexts[d].account, s.contexts[d].pc, s.signatures, s'.signatures); }
    }
    forall tx | tx in s'.posted ensures TxOk(codec, tx.payload.sender, tx, s'.signatures) {
      TxOkGrows(codec, if tx in s.posted then tx.payload.sender else s.contexts[c].account, tx, s.signatures,
          s'.signatures);
    }
  }

  lemma {:induction false} EveryRunKeepsOwn(codec: Codec, ids: set<nat>, events: seq<Event>)
    requires Run(codec, Initial(ids), events).Some?
    ensures AllOwnOk(codec, Run(codec, Initial(ids), events).value)
  {
    hide Perform, TxOk, QuoteOk;
    if |events| > 0 {
      EveryRunKeepsOwn(codec, ids, events[..|events| - 1]);
      var before, last := Run(codec, Initial(ids), events[..|events| - 1]).value, events[|events| - 1];
      if last.Step? { StepKeepsOwn(codec, before, last.c, last.act); }
    }
  }

  /** Every posted payload is complete, even if the lock was lost on the way: the signature in it was made for
      its own digest, and its hash is the one recorded. */
  lemma PostedIsWhatWasSigned(codec: Codec, ids: set<nat>, events: seq<Event>)
    requires Run(codec, Initial(ids), events).Some?
    ensures var s := Run(codec, Initial(ids), events).value;
            forall tx :: tx in s.posted ==>
              && |tx.payload.witnesses| == 1
              && (SigningHash(codec, tx.payload), tx.payload.witnesses[0].signature) in s.signatures
              && tx.record.hash == codec.keccak(codec.encode(tx.payload))
  {
    EveryRunKeepsOwn(codec, ids, events);
    hide Run, SigningHash, OwnOk;
  }

  // ---------------------------------------------------------------- the invariant

  predicate JournalHas(s: State, account: Address, hash: Bytes) {
    account in s.journal && s.journal[account].hash == hash
  }

  /** What a context inside the lock knows about the journal entry of its account. */
  predicate Knows(s: State, account: Address, pc: Pc) {
    match pc
    case Resolving(previous) => JournalHas(s, account, previous.hash)
    case Superseded(previous) => JournalHas(s, account, previous.hash) && previous.hash in s.final
    case Vacant => account !in s.journal
    case Quoted(_) => account !in s.journal
    case SignedUp(_, _) => account !in s.journal
    case Ready(_) => account !in s.journal
    case Journalled(tx) => JournalHas(s, account, tx.record.hash)
    case Announced(tx) => JournalHas(s, account, tx.record.hash)
    case Posted(tx) => JournalHas(s, account, tx.record.hash)
    case Uncertain(tx) => JournalHas(s, account, tx.record.hash)
    case Watching(tx, _) => JournalHas(s, account, tx.record.hash)
    case Settled(tx) => JournalHas(s, account, tx.record.hash) && tx.record.hash in s.final
    case _ => true
  }

  predicate ContextOk(s: State, c: nat)
    requires c in s.contexts
  {
    && (Working(s.contexts[c].pc) ==> s.lock == Some(c))
    && Knows(s, s.contexts[c].account, s.contexts[c].pc)
  }

  predicate Unresolved(s: State, tx: Tx) {
    tx in s.posted && tx.record.hash !in s.final
  }

  /** What was posted and has no final receipt is what the journal of its account names. */
  predicate Safe(s: State) {
    forall tx :: tx in s.posted && Unresolved(s, tx) ==> JournalHas(s, tx.payload.sender, tx.record.hash)
  }

  ghost predicate Invariant(codec: Codec, s: State) {
    AllOwnOk(codec, s) && (forall c :: c in s.contexts ==> ContextOk(s, c)) && Safe(s)
  }

  // ---------------------------------------------------------------- every step keeps it

  /** A step of the lock's holder touches no other context's business. */
  lemma OthersUndisturbed(s: State, s': State, c: nat, d: nat)
    requires c in s.contexts && d in s.contexts && d != c && ContextOk(s, c) && ContextOk(s, d)
    requires Working(s.contexts[c].pc) || s.lock.None? || (s.journal == s'.journal &&
        (s.lock == s'.lock || s.lock == Some(c)))
    requires d in s'.contexts && s'.contexts[d] == s.contexts[d]
    requires s.final <= s'.final
    ensures ContextOk(s', d)
  {
  }

  lemma MoverHoldsLock(codec: Codec, s: State, c: nat, act: Act)
    requires c in s.contexts && Perform(codec, s, c, act).Some? && (Working(s.contexts[c].pc) ==> s.lock == Some(c))
    ensures var s' := Perform(codec, s, c, act).value; Working(s'.contexts[c].pc) ==> s'.lock == Some(c)
  {
    hide PrepareCall, CheckCall, ReceiptOutcome;
  }

  /** The context that moves knows afterwards what it should. */
  lemma MoverKnows(codec: Codec, s: State, c: nat, act: Act)
    requires c in s.contexts && Perform(codec, s, c, act).Some?
    requires Knows(s, s.contexts[c].account, s.contexts[c].pc)
    ensures var s' := Perform(codec, s, c, act).value; Knows(s', s'.contexts[c].account, s'.contexts[c].pc)
  {
    hide PrepareCall, CheckCall, ReceiptOutcome;
  }

  /** An entry changes only with its account's own context inside, and goes only once its receipt is final. */
  lemma JournalChanges(codec: Codec, s: State, c: nat, act: Act, account: Address, hash: Bytes)
    requires c in s.contexts && Perform(codec, s, c, act).Some? && Knows(s, s.contexts[c].account, s.contexts[c].pc)
    requires JournalHas(s, account, hash)
    ensures var s' := Perform(codec, s, c, act).value; hash in s'.final || JournalHas(s', account, hash)
  {
    hide PrepareCall, CheckCall, ReceiptOutcome;
  }

  lemma StepKeepsInvariant(codec: Codec, s: State, c: nat, act: Act)
    requires Invariant(codec, s) && c in s.contexts && Perform(codec, s, c, act).Some?
    ensures Invariant(codec, Perform(codec, s, c, act).value)
  {
    var s' := Perform(codec, s, c, act).value;
    StepKeepsOwn(codec, s, c, act);
    FrameOfStep(codec, s, c, act);
    PostsOnlyAnnounced(codec, s, c, act);
    assert ContextOk(s, c);
    MoverHoldsLock(codec, s, c, act);
    MoverKnows(codec, s, c, act);
    forall d | d in s'.contexts ensures ContextOk(s', d) {
      if d != c {
        assert ContextOk(s, d);
        OthersUndisturbed(s, s', c, d);
      }
    }
    forall tx | tx in s'.posted && Unresolved(s', tx) ensures JournalHas(s', tx.payload.sender, tx.record.hash) {
      StillJournalled(codec, s, c, act, tx);
    }
  }

  lemma StillJournalled(codec: Codec, s: State, c: nat, act: Act, tx: Tx)
    requires Invariant(codec, s) && c in s.contexts && Perform(codec, s, c, act).Some?
    requires Unresolved(Perform(codec, s, c, act).value, tx)
    ensures JournalHas(Perform(codec, s, c, act).value, tx.payload.sender, tx.record.hash)
  {
    var s' := Perform(codec, s, c, act).value;
    FrameOfStep(codec, s, c, act);
    PostsOnlyAnnounced(codec, s, c, act);
    assert ContextOk(s, c);
    hide Perform;
    if tx in s.posted {
      assert Unresolved(s, tx);
    } else {
      TxOkGrows(codec, s.contexts[c].account, tx, s.signatures, s'.signatures);
    }
    JournalChanges(codec, s, c, act, tx.payload.sender, tx.record.hash);
  }

  // ---------------------------------------------------------------- every run

  /** The lock is freed only while its holder has nothing left to do but give it back. */
  predicate Harmless(s: State, e: Event) {
    e.Lapse? && s.lock.Some? && s.lock.value in s.contexts ==> !Working(s.contexts[s.lock.value].pc)
  }

  predicate HarmlessRun(codec: Codec, s: State, events: seq<Event>) {
    if |events| == 0 then true
    else
      var before := Run(codec, s, events[..|events| - 1]);
      HarmlessRun(codec, s, events[..|events| - 1]) && before.Some? && Harmless(before.value, events[|events| - 1])
  }

  lemma {:induction false} EveryRunKeepsInvariant(codec: Codec, ids: set<nat>, events: seq<Event>)
    requires HarmlessRun(codec, Initial(ids), events) && Run(codec, Initial(ids), events).Some?
    ensures Invariant(codec, Run(codec, Initial(ids), events).value)
  {
    hide Perform, ContextOk, AllOwnOk;
    if |events| == 0 {
      NothingKnownInitially(codec, ids);
    } else {
      EveryRunKeepsInvariant(codec, ids, events[..|events| - 1]);
      var before, last := Run(codec, Initial(ids), events[..|events| - 1]).value, events[|events| - 1];
      match last
      case Step(c, act) => StepKeepsInvariant(codec, before, c, act);
      case Lapse => LapseKeepsInvariant(codec, before);
    }
  }

  lemma NothingKnownInitially(codec: Codec, ids: set<nat>)
    ensures Invariant(codec, Initial(ids))
  {
  }

  lemma LapseKeepsInvariant(codec: Codec, s: State)
    requires Invariant(codec, s) && Harmless(s, Lapse)
    ensures Invariant(codec, s.(lock := None))
  {
    hide TxOk, QuoteOk;
    var s' := s.(lock := None);
    forall c | c in s'.contexts ensures ContextOk(s', c) {
      assert ContextOk(s, c);
    }
  }

  /** In every interleaving, with a crash possible at any await: a hash that was posted and has no final
      receipt yet is the one the account's journal holds; so an account has at most one of them. */
  lemma UnresolvedIsJournalled(codec: Codec, ids: set<nat>, events: seq<Event>)
    requires HarmlessRun(codec, Initial(ids), events) && Run(codec, Initial(ids), events).Some?
    ensures var s := Run(codec, Initial(ids), events).value;
            && Safe(s)
            && forall tx, tx' :: Unresolved(s, tx) && Unresolved(s, tx') && tx.payload.sender == tx'.payload.sender ==>
                 tx.record.hash == tx'.record.hash
  {
    EveryRunKeepsInvariant(codec, ids, events);
    hide Run, AllOwnOk;
  }

  /** At most one context works inside the lock, over all accounts. */
  lemma OneContextInside(codec: Codec, ids: set<nat>, events: seq<Event>, c: nat, d: nat)
    requires HarmlessRun(codec, Initial(ids), events) && Run(codec, Initial(ids), events).Some?
    requires var s := Run(codec, Initial(ids), events).value;
             c in s.contexts && d in s.contexts && Working(s.contexts[c].pc) && Working(s.contexts[d].pc)
    ensures c == d
  {
    EveryRunKeepsInvariant(codec, ids, events);
    hide Run, Knows;
    var s := Run(codec, Initial(ids), events).value;
    assert ContextOk(s, c) && ContextOk(s, d);
  }

  /** No step, and no crash, drops or replaces a journal entry whose receipt was not seen final. */
  lemma EntriesOutliveCrashes(codec: Codec, ids: set<nat>, events: seq<Event>, e: Event, account: Address)
    requires HarmlessRun(codec, Initial(ids), events) && Run(codec, Initial(ids), events).Some?
    requires var s := Run(codec, Initial(ids), events).value; account in s.journal && Next(codec, s, e).Some?
    ensures var s := Run(codec, Initial(ids), events).value;
            var s' := Next(codec, s, e).value;
            s.journal[account].hash in s'.final || JournalHas(s', account, s.journal[account].hash)
  {
    EveryRunKeepsInvariant(codec, ids, events);
    hide Run, Perform;
    var s := Run(codec, Initial(ids), events).value;
    if e.Step? {
      assert ContextOk(s, e.c);
      JournalChanges(codec, s, e.c, e.act, account, s.journal[account].hash);
    }
  }
}

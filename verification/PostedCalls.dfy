/** What is posted is what was asked for: every transaction that leaves goes back to one request, priced, signed and
    checked by the same context in the same run, and its frames, read back, are that request and nothing else. */
module PostedCalls {
  import opened Bytes
  import opened FramePayload
  import opened SendProtocol
  import opened Wrappers

  /** The events a transaction goes back to. */
  datatype Origin = Origin(c: nat, key: Key, req: Request, at: Chain, signed: Signed, checkedAt: Chain)

  // ---------------------------------------------------------------- reading the payload back

  /** The last frame is the requested call: mode 2, and the padded gas estimate for execution and for state. */
  predicate CallIs(f: Frame, req: Request, estimated: nat) {
    && f.mode == 2 && f.flags == 0 && f.target == req.recipient && f.value == req.value && f.data == req.data
    && f.executionGas == f.stateGas && 250000 <= f.executionGas <= 5000000
    && (f.executionGas == 250000 || 2 * f.executionGas <= 3 * estimated) && 3 * estimated < 2 * (f.executionGas + 1)
  }

  /** The account checks its own signature before it: mode 1, flags 3, nothing else in it. */
  predicate ValidationIs(f: Frame, sender: Address, deployed: bool) {
    f == Frame(1, 3, sender, if deployed then 450000 else 415000, 0, 0, [])
  }

  /** And the factory creates the account before that. */
  predicate DeploymentIs(f: Frame, factory: Address, call: Bytes) {
    f == Frame(0, 0, factory, 80000, 450000, 0, call)
  }

  predicate FramesAre(codec: Codec, o: Origin, frames: seq<Frame>) {
    && |frames| == (if o.at.deployed then 2 else 3)
    && CallIs(frames[|frames| - 1], o.req, o.at.estimated)
    && ValidationIs(frames[|frames| - 2], codec.addressOf(o.key), o.at.deployed)
    && (!o.at.deployed ==> DeploymentIs(frames[0], codec.factory, codec.createAccount(o.key)))
  }

  /** Chain, account, fees and signature. */
  predicate HeadIs(codec: Codec, o: Origin, p: Payload) {
    && p.chainId == 1337 && p.nonce == o.at.nonce && p.sender == codec.addressOf(o.key)
    && p.priorityFee == 1000000000 && p.maxFee == 2 * o.at.baseFee + 1000000000 <= 3000000000
    && p.witnesses == [Witness([], [], [], o.signed.signature)] && |o.signed.signature| == 6176
  }

  /** The most that is set aside for the fee. */
  function Reserve(req: Request, p: Payload): nat
    requires |p.frames| > 0
  {
    (1500000 + 2 * p.frames[|p.frames| - 1].executionGas + 40 * |req.data|) * p.maxFee
  }

  /** What the node and the clock said when it was priced and when it was checked, and what the user had reviewed. */
  predicate ChecksHeld(o: Origin, p: Payload)
    requires |p.frames| > 0
  {
    && o.at.trusted && o.checkedAt.trusted && o.checkedAt.simulates
    && o.signed.key == o.key && o.checkedAt.nonce == o.at.nonce && o.checkedAt.deployed == o.at.deployed
    && o.checkedAt.now - o.at.now <= 240000 && |o.req.data| <= 45000
    && (o.req.expectedNonce.Some? ==> o.req.expectedNonce.value == p.nonce)
    && (o.req.reviewed.Some? ==>
          o.at.now - o.req.reviewed.value.at <= 240000 && Reserve(o.req, p) <= o.req.reviewed.value.feeReserve)
    && o.at.balance >= o.req.value + Reserve(o.req, p) && o.checkedAt.balance >= o.req.value + Reserve(o.req, p)
    && GasLimit(p.frames) * p.maxFee <= Reserve(o.req, p)
  }

  predicate IsRequested(codec: Codec, o: Origin, p: Payload) {
    FramesAre(codec, o, p.frames) && HeadIs(codec, o, p) && ChecksHeld(o, p)
  }

  function QuoteFor(codec: Codec, account: Address, o: Origin): Option<Quote> {
    PrepareCall(codec, account, o.key, o.req, o.at)
  }

  function TxFor(codec: Codec, account: Address, o: Origin): Option<Tx> {
    if QuoteFor(codec, account, o).None? then None
    else CheckCall(codec, QuoteFor(codec, account, o).value, o.signed, o.checkedAt)
  }

  /** A transaction that is priced, signed and checked is the one requested. */
  lemma CheckedIsRequested(codec: Codec, account: Address, o: Origin)
    requires TxFor(codec, account, o).Some?
    ensures IsRequested(codec, o, TxFor(codec, account, o).value.payload)
  {
    hide GasLimit, SigningHash;
    var q := QuoteFor(codec, account, o).value;
    assert QuoteOk(codec, account, q);
    GasWithinReserve(codec, account, q, o.signed, o.checkedAt);
    hide CallIs;
    PaddedGas(codec, account, o);
  }

  lemma PaddedGas(codec: Codec, account: Address, o: Origin)
    requires TxFor(codec, account, o).Some?
    ensures var frames := TxFor(codec, account, o).value.payload.frames;
            |frames| >= 2 && CallIs(frames[|frames| - 1], o.req, o.at.estimated)
  {
    hide GasLimit, SigningHash;
  }

  // ---------------------------------------------------------------- over every run

  /** The context priced this request, got this signature and made these checks, in this order. */
  datatype Trail = Trail(o: Origin, priced: nat, signed: nat, checked: nat)

  predicate Priced(codec: Codec, events: seq<Event>, c: nat, account: Address, q: Quote, t: Trail) {
    && t.o.c == c && t.priced < |events| && events[t.priced] == Step(c, Prepare(t.o.key, t.o.req, t.o.at))
    && QuoteFor(codec, account, t.o) == Some(q)
  }

  predicate SignedFor(codec: Codec, events: seq<Event>, c: nat, account: Address, q: Quote, signed: Signed, t: Trail) {
    && Priced(codec, events, c, account, q, t)
    && t.priced < t.signed < |events| && events[t.signed] == Step(c, Sign(signed)) && t.o.signed == signed
  }

  predicate Traced(codec: Codec, events: seq<Event>, account: Address, tx: Tx, t: Trail) {
    && t.priced < t.signed < t.checked < |events|
    && events[t.priced] == Step(t.o.c, Prepare(t.o.key, t.o.req, t.o.at))
    && events[t.signed] == Step(t.o.c, Sign(t.o.signed)) && events[t.checked] == Step(t.o.c, Check(t.o.checkedAt))
    && TxFor(codec, account, t.o) == Some(tx)
  }

  ghost predicate HandTraced(codec: Codec, events: seq<Event>, c: nat, account: Address, pc: Pc) {
    match pc
    case Quoted(q) => exists t :: Priced(codec, events, c, account, q, t)
    case SignedUp(q, signed) => exists t :: SignedFor(codec, events, c, account, q, signed, t)
    case Ready(tx) => exists t :: Traced(codec, events, account, tx, t)
    case Journalled(tx) => exists t :: Traced(codec, events, account, tx, t)
    case Announced(tx) => exists t :: Traced(codec, events, account, tx, t)
    case _ => true
  }

  ghost predicate AllTraced(codec: Codec, events: seq<Event>, s: State) {
    && (forall c :: c in s.contexts ==> HandTraced(codec, events, c, s.contexts[c].account, s.contexts[c].pc))
    && (forall tx :: tx in s.posted ==> exists t, account :: Traced(codec, events, account, tx, t))
  }

  lemma TrailsStay(codec: Codec, events: seq<Event>, e: Event, c: nat, account: Address, pc: Pc)
    requires HandTraced(codec, events, c, account, pc)
    ensures HandTraced(codec, events + [e], c, account, pc)
  {
    hide QuoteFor, TxFor;
    var more := events + [e];
    match pc
    case Quoted(q) =>
      var t :| Priced(codec, events, c, account, q, t);
      assert Priced(codec, more, c, account, q, t);
    case SignedUp(q, signed) =>
      var t :| SignedFor(codec, events, c, account, q, signed, t);
      assert SignedFor(codec, more, c, account, q, signed, t);
    case Ready(tx) => TraceStays(codec, events, e, account, tx);
    case Journalled(tx) => TraceStays(codec, events, e, account, tx);
    case Announced(tx) => TraceStays(codec, events, e, account, tx);
    case _ =>
  }

  lemma TraceStays(codec: Codec, events: seq<Event>, e: Event, account: Address, tx: Tx)
    requires exists t :: Traced(codec, events, account, tx, t)
    ensures exists t :: Traced(codec, events + [e], account, tx, t)
  {
    hide TxFor;
    var t :| Traced(codec, events, account, tx, t);
    assert Traced(codec, events + [e], account, tx, t);
  }

  /** The context that moves has in hand what this very event, or the events before it, gave it. */
  lemma MoverIsTraced(codec: Codec, events: seq<Event>, s: State, c: nat, act: Act)
    requires c in s.contexts && Perform(codec, s, c, act).Some?
    requires HandTraced(codec, events, c, s.contexts[c].account, s.contexts[c].pc)
    ensures var s' := Perform(codec, s, c, act).value;
            HandTraced(codec, events + [Step(c, act)], c, s'.contexts[c].account, s'.contexts[c].pc)
  {
    var account, pc, s' := s.contexts[c].account, s.contexts[c].pc, Perform(codec, s, c, act).value;
    TrailsStay(codec, events, Step(c, act), c, account, pc);
    match act
    case Prepare(key, req, at) => PricedNow(codec, events, s, c, key, req, at);
    case Sign(signed) => SignedNow(codec, events, s, c, signed);
    case Check(at) => CheckedNow(codec, events, s, c, at);
    case _ => OthersCarryOn(codec, events + [Step(c, act)], s, c, act);
  }

  /** Any other await passes on the transaction in hand, or none. */
  lemma OthersCarryOn(codec: Codec, events: seq<Event>, s: State, c: nat, act: Act)
    requires c in s.contexts && Perform(codec, s, c, act).Some? && !act.Prepare? && !act.Sign? && !act.Check?
    requires HandTraced(codec, events, c, s.contexts[c].account, s.contexts[c].pc)
    ensures var s' := Perform(codec, s, c, act).value;
            HandTraced(codec, events, c, s'.contexts[c].account, s'.contexts[c].pc)
  {
    hide PrepareCall, CheckCall, ReceiptOutcome, Traced, Priced, SignedFor;
  }

  lemma PricedNow(codec: Codec, events: seq<Event>, s: State, c: nat, key: Key, req: Request, at: Chain)
    requires c in s.contexts && Perform(codec, s, c, Prepare(key, req, at)).Some?
    ensures var s' := Perform(codec, s, c, Prepare(key, req, at)).value;
            HandTraced(codec, events + [Step(c, Prepare(key, req, at))], c, s'.contexts[c].account, s'.contexts[c].pc)
  {
    hide PrepareCall, CheckCall, ReceiptOutcome;
    var s' := Perform(codec, s, c, Prepare(key, req, at)).value;
    if s'.contexts[c].pc.Quoted? {
      var t := Trail(Origin(c, key, req, at, Signed(key, []), at), |events|, 0, 0);
      assert Priced(codec, events + [Step(c, Prepare(key, req, at))], c, s'.contexts[c].account,
          s'.contexts[c].pc.quote, t);
    }
  }

  lemma SignedNow(codec: Codec, events: seq<Event>, s: State, c: nat, signed: Signed)
    requires c in s.contexts && Perform(codec, s, c, Sign(signed)).Some?
    requires HandTraced(codec, events, c, s.contexts[c].account, s.contexts[c].pc)
    ensures var s' := Perform(codec, s, c, Sign(signed)).value;
            HandTraced(codec, events + [Step(c, Sign(signed))], c, s'.contexts[c].account, s'.contexts[c].pc)
  {
    hide PrepareCall, CheckCall, ReceiptOutcome, QuoteFor;
    var account, q := s.contexts[c].account, s.contexts[c].pc.quote;
    var t :| Priced(codec, events, c, account, q, t);
    var t' := t.(o := t.o.(signed := signed), signed := |events|);
    SameQuote(codec, account, t.o, signed);
    assert SignedFor(codec, events + [Step(c, Sign(signed))], c, account, q, signed, t');
  }

  lemma SameQuote(codec: Codec, account: Address, o: Origin, signed: Signed)
    ensures QuoteFor(codec, account, o.(signed := signed)) == QuoteFor(codec, account, o)
  {
  }

  lemma CheckedNow(codec: Codec, events: seq<Event>, s: State, c: nat, at: Chain)
    requires c in s.contexts && Perform(codec, s, c, Check(at)).Some?
    requires HandTraced(codec, events, c, s.contexts[c].account, s.contexts[c].pc)
    ensures var s' := Perform(codec, s, c, Check(at)).value;
            HandTraced(codec, events + [Step(c, Check(at))], c, s'.contexts[c].account, s'.contexts[c].pc)
  {
    hide PrepareCall, CheckCall, ReceiptOutcome;
    var account, pc, s' := s.contexts[c].account, s.contexts[c].pc, Perform(codec, s, c, Check(at)).value;
    var t :| SignedFor(codec, events, c, account, pc.quote, pc.signed, t);
    if s'.contexts[c].pc.Ready? {
      var t' := t.(o := t.o.(checkedAt := at), checked := |events|);
      assert Traced(codec, events + [Step(c, Check(at))], account, s'.contexts[c].pc.tx, t');
    }
  }

  lemma StepKeepsTraces(codec: Codec, events: seq<Event>, s: State, c: nat, act: Act)
    requires AllTraced(codec, events, s) && c in s.contexts && Perform(codec, s, c, act).Some?
    ensures AllTraced(codec, events + [Step(c, act)], Perform(codec, s, c, act).value)
  {
    var s' := Perform(codec, s, c, act).value;
    FrameOfStep(codec, s, c, act);
    PostsOnlyAnnounced(codec, s, c, act);
    MoverIsTraced(codec, events, s, c, act);
    hide Perform, Traced;
    forall d | d in s'.contexts
      ensures HandTraced(codec, events + [Step(c, act)], d, s'.contexts[d].account, s'.contexts[d].pc)
    {
      if d != c { TrailsStay(codec, events, Step(c, act), d, s.contexts[d].account, s.contexts[d].pc); }
    }
    forall tx | tx in s'.posted ensures exists t, account :: Traced(codec, events + [Step(c, act)], account, tx, t) {
      if tx in s.posted {
        var t, account :| Traced(codec, events, account, tx, t);
        TraceStays(codec, events, Step(c, act), account, tx);
      } else {
        TraceStays(codec, events, Step(c, act), s.contexts[c].account, tx);
      }
    }
  }

  lemma {:induction false} EveryRunIsTraced(codec: Codec, ids: set<nat>, events: seq<Event>)
    requires Run(codec, Initial(ids), events).Some?
    ensures AllTraced(codec, events, Run(codec, Initial(ids), events).value)
  {
    hide Perform, HandTraced, Traced;
    if |events| == 0 {
      NothingInHand(codec, ids);
    } else {
      var before, e := events[..|events| - 1], events[|events| - 1];
      var s := Run(codec, Initial(ids), before).value;
      EveryRunIsTraced(codec, ids, before);
      assert events == before + [e];
      match e
      case Step(c, act) => StepKeepsTraces(codec, before, s, c, act);
      case Lapse => LapseKeepsTraces(codec, before, s);
    }
  }

  lemma NothingInHand(codec: Codec, ids: set<nat>)
    ensures AllTraced(codec, [], Initial(ids))
  {
  }

  lemma LapseKeepsTraces(codec: Codec, events: seq<Event>, s: State)
    requires AllTraced(codec, events, s)
    ensures AllTraced(codec, events + [Lapse], s.(lock := None))
  {
    hide Traced;
    forall d | d in s.contexts ensures HandTraced(codec, events + [Lapse], d, s.contexts[d].account, s.contexts[d].pc) {
      TrailsStay(codec, events, Lapse, d, s.contexts[d].account, s.contexts[d].pc);
    }
    forall tx | tx in s.posted ensures exists t, account :: Traced(codec, events + [Lapse], account, tx, t) {
      var t, account :| Traced(codec, events, account, tx, t);
      TraceStays(codec, events, Lapse, account, tx);
    }
  }

  /** In every run, the lock kept or lost: whatever was posted was asked for, priced, signed and checked by one context
      in this order, and carries exactly that request. */
  lemma PostedIsRequested(codec: Codec, ids: set<nat>, events: seq<Event>, tx: Tx)
    requires Run(codec, Initial(ids), events).Some? && tx in Run(codec, Initial(ids), events).value.posted
    ensures exists t, account :: Traced(codec, events, account, tx, t) && IsRequested(codec, t.o, tx.payload)
  {
    EveryRunIsTraced(codec, ids, events);
    hide Run, IsRequested;
    var t, account :| Traced(codec, events, account, tx, t);
    CheckedIsRequested(codec, account, t.o);
  }
}

/** The send protocol over the leases it really stands on: each context asks the background for a lease, renews it
    on a timer and looks at a flag before it goes on. What the abstract lock of module SendProtocol promises holds in
    every run in which no lease is taken from a context that works. */
module LeasedSend {
  import opened FramePayload
  import opened Wrappers

  import Lock = LockProtocol
  import Send = SendProtocol

  /** The lifetime a send asks for. */
  const TTL: nat := 300000

  /** Under which name a context was last granted the lock, and when it was last granted or renewed. */
  datatype Ticket = Ticket(owner: Lock.Owner, granted: nat)

  /** The contexts and what they share, the lease, which context took which name, and the contexts whose flag says
      that a renewal was refused. The lock is the lease, so the field `lock` of `send` is not used. */
  datatype State = State(send: Send.State, store: Lock.Store, owners: map<Lock.Owner, nat>, tickets: map<nat, Ticket>,
                         lost: set<nat>)

  datatype Event =
    | Enter(c: nat, owner: Lock.Owner, account: Address)
    | Await(c: nat, act: Send.Act)       // every await inside the lock
    | Renewal(c: nat)
    | RenewalFails(c: nat)               // no answer comes back
    | Leave(c: nat, delivered: bool)
    | Elsewhere(e: Lock.Event)           // other users of the lock, the session, the service worker, the clock

  function Start(ids: set<nat>, durable: bool, now: nat): State {
    State(Send.Initial(ids), Lock.Fresh(durable, now).store, map[], map[], {})
  }

  /** The lease that a lookup finds. */
  function Found(store: Lock.Store): Option<Lock.Lease> {
    Lock.Lookup(store).memory
  }

  /** The context that the lease belongs to. */
  function LockOf(s: State): Option<nat> {
    var lease := Found(s.store);
    if lease.Some? && lease.value.owner in s.owners then Some(s.owners[lease.value.owner]) else None
  }

  function AsSend(s: State): Send.State {
    s.send.(lock := LockOf(s))
  }

  /** The awaits after which a context looks at its flag before it goes on. */
  predicate Guarded(act: Send.Act) {
    act.Prepare? || act.Sign? || act.Announce?
  }

  function EnterStep(s: State, c: nat, owner: Lock.Owner, account: Address): State
    requires c in s.send.contexts
  {
    var (store, ok) := Lock.Acquire(s.store, owner, Some(TTL));
    if !ok then s.(store := store)
    else s.(store := store, owners := s.owners[owner := c], tickets := s.tickets[c := Ticket(owner, store.now)],
            lost := s.lost - {c},
            send := s.send.(contexts := s.send.contexts[c := Send.Context(account, Send.Entered)]))
  }

  function RenewalStep(s: State, c: nat): State
    requires c in s.tickets
  {
    var (store, ok) := Lock.Renew(s.store, s.tickets[c].owner, Some(TTL));
    if ok then s.(store := store, tickets := s.tickets[c := s.tickets[c].(granted := store.now)])
    else s.(store := store, lost := s.lost + {c})
  }

  function LeaveStep(s: State, c: nat, delivered: bool): State
    requires c in s.tickets && c in s.send.contexts
  {
    s.(store := if delivered then Lock.Release(s.store, s.tickets[c].owner).0 else s.store,
       send := Send.Goto(s.send, c, Send.Idle))
  }

  function StoreAfter(store: Lock.Store, e: Lock.Event): Lock.Store {
    Lock.Next(Lock.World(store, map[]), e).store
  }

  /** A name that no context ever took: names are drawn at random. */
  predicate Foreign(s: State, e: Lock.Event) {
    e.Acquires? || e.Renews? || e.Releases? ==> e.owner !in s.owners
  }

  /** `None` is an event that does not come next. */
  function Next(codec: Codec, s: State, e: Event): Option<State> {
    match e
    case Enter(c, owner, account) =>
      if c in s.send.contexts && s.send.contexts[c].pc.Idle? && owner !in s.owners
      then Some(EnterStep(s, c, owner, account)) else None
    case Await(c, act) =>
      if c !in s.send.contexts || act.Acquire? || act.Release? || (Guarded(act) && c in s.lost) then None
      else
        var r := Send.Perform(codec, AsSend(s), c, act);
        if r.None? then None else Some(s.(send := r.value.(lock := None)))
    case Renewal(c) => if c in s.tickets then Some(RenewalStep(s, c)) else None
    case RenewalFails(c) => Some(s.(lost := s.lost + {c}))
    case Leave(c, delivered) =>
      if c in s.tickets && c in s.send.contexts && s.send.contexts[c].pc.Leaving?
      then Some(LeaveStep(s, c, delivered)) else None
    case Elsewhere(e') => if Foreign(s, e') then Some(s.(store := StoreAfter(s.store, e'))) else None
  }

  function Run(codec: Codec, s: State, events: seq<Event>): Option<State> {
    if |events| == 0 then Some(s)
    else
      var before := Run(codec, s, events[..|events| - 1]);
      if before.None? then None else Next(codec, before.value, events[|events| - 1])
  }

  // ---------------------------------------------------------------- a step is a step of the send protocol

  /** The lease is that of the ticket under whose name it stands. */
  predicate TicketOk(s: State) {
    var lease := Found(s.store);
    lease.Some? && lease.value.owner in s.owners ==>
      var c := s.owners[lease.value.owner];
      c in s.tickets && lease == Some(Lock.Lease(s.tickets[c].owner, s.tickets[c].granted + TTL))
  }

  ghost predicate Linked(s: State) {
    && s.send.lock.None? && Lock.Coherent(s.store) && TicketOk(s)
    && (forall c :: c in s.tickets ==> s.tickets[c].owner in s.owners && s.owners[s.tickets[c].owner] == c)
    && (forall c :: c in s.send.contexts && Send.InLock(s.send.contexts[c].pc) ==> c in s.tickets)
  }

  /** The event of the send protocol that an event stands for, if it is not hidden from it. */
  function Shown(codec: Codec, s: State, e: Event): Option<Send.Event>
    requires Next(codec, s, e).Some?
  {
    match e
    case Enter(c, _, account) =>
      if Found(s.store).Some? then None else Some(Send.Step(c, Send.Acquire(account)))
    case Await(c, act) => Some(Send.Step(c, act))
    case Leave(c, delivered) => Some(Send.Step(c, Send.Release(delivered)))
    case _ => if LockOf(Next(codec, s, e).value) != LockOf(s) then Some(Send.Lapse) else None
  }

  ghost predicate StepIs(codec: Codec, s: Send.State, e: Option<Send.Event>, s': Send.State) {
    if e.None? then s' == s else Send.Next(codec, s, e.value) == Some(s')
  }

  // What each operation leaves for the next lookup to find.

  lemma AfterAcquire(store: Lock.Store, owner: Lock.Owner)
    requires Lock.Coherent(store)
    ensures var (store', ok) := Lock.Acquire(store, owner, Some(TTL));
            && Lock.Coherent(store') && store'.now == store.now && (ok <==> Found(store).None?)
            && Found(store') == if ok then Some(Lock.Lease(owner, store.now + TTL)) else Found(store)
  {
  }

  lemma AfterRenew(store: Lock.Store, owner: Lock.Owner)
    requires Lock.Coherent(store)
    ensures var (store', ok) := Lock.Renew(store, owner, Some(TTL));
            && Lock.Coherent(store') && store'.now == store.now
            && (ok <==> Found(store).Some? && Found(store).value.owner == owner)
            && Found(store') == if ok then Some(Lock.Lease(owner, store.now + TTL)) else Found(store)
  {
  }

  lemma AfterRelease(store: Lock.Store, owner: Lock.Owner)
    requires Lock.Coherent(store)
    ensures var (store', ok) := Lock.Release(store, owner);
            && Lock.Coherent(store') && (ok <==> Found(store).Some? && Found(store).value.owner == owner)
            && Found(store') == if ok then None else Found(store)
  {
  }

  /** Everything else leaves the lease as it is, or takes it, or concerns another name. */
  lemma AfterElsewhere(store: Lock.Store, e: Lock.Event)
    requires Lock.Coherent(store)
    ensures var after := StoreAfter(store, e);
            && Lock.Coherent(after)
            && (|| Found(after) == Found(store) || Found(after).None?
                || ((e.Acquires? || e.Renews?) && Found(after).Some? && Found(after).value.owner == e.owner
                    && (Found(store).None? || Found(store).value.owner == e.owner)))
  {
  }

  lemma ReleaseDoes(codec: Codec, s: Send.State, c: nat, delivered: bool)
    requires c in s.contexts && s.contexts[c].pc.Leaving?
    ensures Send.Perform(codec, s, c, Send.Release(delivered))
         == Some(Send.Goto(s, c, Send.Idle).(lock := if delivered && s.lock == Some(c) then None else s.lock))
  {
  }

  lemma EnterIsAcquire(codec: Codec, s: State, e: Event)
    requires Linked(s) && e.Enter? && Next(codec, s, e).Some?
    ensures Linked(Next(codec, s, e).value)
    ensures StepIs(codec, AsSend(s), Shown(codec, s, e), AsSend(Next(codec, s, e).value))
  {
    AfterAcquire(s.store, e.owner);
    hide Lock.Lookup, Lock.Write, Lock.Coherent, Lock.Acquire, Lock.Renew, Lock.Release, Send.Perform;
  }

  /** No await inside the lock looks at the lock or changes it. */
  lemma AwaitLeavesLock(codec: Codec, s: Send.State, c: nat, act: Send.Act)
    requires c in s.contexts && !act.Acquire? && !act.Release? && Send.Perform(codec, s, c, act).Some?
    ensures var s' := Send.Perform(codec, s, c, act).value;
            && s'.lock == s.lock && s'.contexts.Keys == s.contexts.Keys
            && (forall d :: d in s.contexts && Send.InLock(s'.contexts[d].pc) ==> Send.InLock(s.contexts[d].pc))
  {
    hide PrepareCall, CheckCall, ReceiptOutcome;
  }

  lemma AwaitIsStep(codec: Codec, s: State, e: Event)
    requires Linked(s) && e.Await? && Next(codec, s, e).Some?
    ensures Linked(Next(codec, s, e).value)
    ensures StepIs(codec, AsSend(s), Shown(codec, s, e), AsSend(Next(codec, s, e).value))
  {
    AwaitLeavesLock(codec, AsSend(s), e.c, e.act);
    hide Send.Perform;
  }

  lemma RenewalIsHidden(codec: Codec, s: State, e: Event)
    requires Linked(s) && (e.Renewal? || e.RenewalFails?) && Next(codec, s, e).Some?
    ensures Linked(Next(codec, s, e).value)
    ensures Shown(codec, s, e).None? && AsSend(s) == AsSend(Next(codec, s, e).value)
  {
    if e.Renewal? { AfterRenew(s.store, s.tickets[e.c].owner); }
    hide Lock.Lookup, Lock.Write, Lock.Coherent, Lock.Acquire, Lock.Renew, Lock.Release;
  }

  lemma LeaveIsRelease(codec: Codec, s: State, e: Event)
    requires Linked(s) && e.Leave? && Next(codec, s, e).Some?
    ensures Linked(Next(codec, s, e).value)
    ensures StepIs(codec, AsSend(s), Shown(codec, s, e), AsSend(Next(codec, s, e).value))
  {
    AfterRelease(s.store, s.tickets[e.c].owner);
    ReleaseDoes(codec, AsSend(s), e.c, e.delivered);
    hide Lock.Lookup, Lock.Write, Lock.Coherent, Lock.Acquire, Lock.Renew, Lock.Release, Send.Perform;
  }

  /** Whatever happens elsewhere, the lease stays what it was for the contexts or is gone. */
  lemma ElsewhereIsLapse(codec: Codec, s: State, e: Event)
    requires Linked(s) && e.Elsewhere? && Next(codec, s, e).Some?
    ensures Linked(Next(codec, s, e).value)
    ensures StepIs(codec, AsSend(s), Shown(codec, s, e), AsSend(Next(codec, s, e).value))
  {
    AfterElsewhere(s.store, e.e);
    hide Lock.Lookup, Lock.Write, Lock.Coherent, Lock.Acquire, Lock.Renew, Lock.Release, StoreAfter;
  }

  lemma StepRefines(codec: Codec, s: State, e: Event)
    requires Linked(s) && Next(codec, s, e).Some?
    ensures Linked(Next(codec, s, e).value)
    ensures StepIs(codec, AsSend(s), Shown(codec, s, e), AsSend(Next(codec, s, e).value))
  {
    hide Next, Linked, Shown, AsSend, Send.Next;
    match e
    case Enter(_, _, _) => EnterIsAcquire(codec, s, e);
    case Await(_, _) => AwaitIsStep(codec, s, e);
    case Renewal(_) => RenewalIsHidden(codec, s, e);
    case RenewalFails(_) => RenewalIsHidden(codec, s, e);
    case Leave(_, _) => LeaveIsRelease(codec, s, e);
    case Elsewhere(_) => ElsewhereIsLapse(codec, s, e);
  }

  // ---------------------------------------------------------------- every run is a run of the send protocol

  /** The event takes no lease from a context that works: the clock does not reach the end of its lease, the session
      is locked and an undurable lease forgotten only while nobody works. */
  ghost predicate Spares(s: State, e: Event) {
    && (e.Elsewhere? && e.e.Wait? ==> forall c :: c in s.send.contexts && Send.Working(s.send.contexts[c].pc) ==>
          c in s.tickets && s.store.now + e.e.ms < s.tickets[c].granted + TTL)
    && (e == Elsewhere(Lock.LockSession) || (e == Elsewhere(Lock.Restart) && !s.store.durable) ==> NobodyWorks(s))
  }

  ghost predicate NobodyWorks(s: State) {
    forall c :: c in s.send.contexts ==> !Send.Working(s.send.contexts[c].pc)
  }

  /** Whoever works has the lease. */
  ghost predicate WorkersHold(s: State) {
    forall c :: c in s.send.contexts && Send.Working(s.send.contexts[c].pc) ==> LockOf(s) == Some(c)
  }

  ghost predicate ShownHarmless(codec: Codec, s: State, e: Event)
    requires Next(codec, s, e).Some?
  {
    Shown(codec, s, e).Some? ==> Send.Harmless(AsSend(s), Shown(codec, s, e).value)
  }

  /** What the clock, the session and the service worker do is harmless exactly when it spares whoever works. */
  lemma HarmlessExactlyWhenSpared(codec: Codec, s: State, e: Event)
    requires Linked(s) && WorkersHold(s) && Next(codec, s, e).Some?
    ensures ShownHarmless(codec, s, e) <==> Spares(s, e)
  {
    if e.Renewal? || e.RenewalFails? { RenewalIsHidden(codec, s, e); }
    if e.Elsewhere? { ElsewhereIsHarmlessWhen(codec, s, e); }
    hide Linked, Next, AsSend, WorkersHold;
  }

  lemma ElsewhereIsHarmlessWhen(codec: Codec, s: State, e: Event)
    requires Linked(s) && WorkersHold(s) && e.Elsewhere? && Next(codec, s, e).Some?
    ensures ShownHarmless(codec, s, e) <==> Spares(s, e)
  {
    AfterElsewhere(s.store, e.e);
    assert Next(codec, s, e).value == s.(store := StoreAfter(s.store, e.e));
    hide Next, Send.Perform;
    if !Spares(s, e) {
      var c :| c in s.send.contexts && Send.Working(s.send.contexts[c].pc)
          && (e.e.Wait? ==> c !in s.tickets || s.store.now + e.e.ms >= s.tickets[c].granted + TTL);
      assert LockOf(s) == Some(c);
    }
  }

  /** Every event of the run spares whoever works. */
  ghost predicate SparingRun(codec: Codec, s: State, events: seq<Event>) {
    if |events| == 0 then true
    else
      var before := Run(codec, s, events[..|events| - 1]);
      SparingRun(codec, s, events[..|events| - 1]) && before.Some? && Spares(before.value, events[|events| - 1])
  }

  lemma StartIsInitial(ids: set<nat>, durable: bool, now: nat)
    ensures Linked(Start(ids, durable, now)) && AsSend(Start(ids, durable, now)) == Send.Initial(ids)
  {
  }

  lemma OneMoreShown(codec: Codec, s0: Send.State, run: seq<Send.Event>, s: Send.State, e: Send.Event)
    requires Send.Run(codec, s0, run) == Some(s)
    ensures Send.Run(codec, s0, run + [e]) == Send.Next(codec, s, e)
    ensures Send.HarmlessRun(codec, s0, run + [e]) <==> Send.HarmlessRun(codec, s0, run) && Send.Harmless(s, e)
  {
    assert (run + [e])[..|run|] == run;
  }

  lemma InvariantMeansHold(codec: Codec, s: State)
    requires Send.Invariant(codec, AsSend(s))
    ensures WorkersHold(s)
  {
    forall c | c in s.send.contexts && Send.Working(s.send.contexts[c].pc) ensures LockOf(s) == Some(c) {
      assert Send.ContextOk(AsSend(s), c);
    }
  }

  /** Every run is, event by event, a run of the send protocol, and a harmless one when it spares whoever works. */
  lemma {:induction false} RunRefines(codec: Codec, ids: set<nat>, durable: bool, now: nat, events: seq<Event>)
    returns (shown: seq<Send.Event>)
    requires Run(codec, Start(ids, durable, now), events).Some?
    ensures var s := Run(codec, Start(ids, durable, now), events).value;
            && Linked(s) && Send.Run(codec, Send.Initial(ids), shown) == Some(AsSend(s))
            && (SparingRun(codec, Start(ids, durable, now), events) ==>
                  Send.HarmlessRun(codec, Send.Initial(ids), shown) && WorkersHold(s))
  {
    hide Linked, Next, AsSend, WorkersHold, Spares, Shown, Send.Run, Send.HarmlessRun, Send.Next, Send.Invariant,
        Send.Harmless;
    if |events| == 0 {
      StartIsInitial(ids, durable, now);
      shown := [];
      NothingShown(codec, ids);
    } else {
      var before, e := events[..|events| - 1], events[|events| - 1];
      var s := Run(codec, Start(ids, durable, now), before).value;
      shown := RunRefines(codec, ids, durable, now, before);
      StepRefines(codec, s, e);
      if SparingRun(codec, Start(ids, durable, now), events) { HarmlessExactlyWhenSpared(codec, s, e); }
      if Shown(codec, s, e).Some? {
        OneMoreShown(codec, Send.Initial(ids), shown, AsSend(s), Shown(codec, s, e).value);
        shown := shown + [Shown(codec, s, e).value];
      }
    }
    if SparingRun(codec, Start(ids, durable, now), events) {
      Send.EveryRunKeepsInvariant(codec, ids, shown);
      InvariantMeansHold(codec, Run(codec, Start(ids, durable, now), events).value);
    }
  }

  lemma NothingShown(codec: Codec, ids: set<nat>)
    ensures Send.Run(codec, Send.Initial(ids), []) == Some(Send.Initial(ids))
    ensures Send.HarmlessRun(codec, Send.Initial(ids), [])
  {
  }

  /** So the journal theorem holds over leases: a posted hash without a final receipt is the one its account's
      journal names. */
  lemma LeasedSendsAreJournalled(codec: Codec, ids: set<nat>, durable: bool, now: nat, events: seq<Event>)
    requires Run(codec, Start(ids, durable, now), events).Some? && SparingRun(codec, Start(ids, durable, now), events)
    ensures Send.Safe(Run(codec, Start(ids, durable, now), events).value.send)
  {
    var shown := RunRefines(codec, ids, durable, now, events);
    Send.UnresolvedIsJournalled(codec, ids, shown);
    hide Run, Linked, Send.Run, Send.HarmlessRun, WorkersHold, SparingRun;
    SafeIgnoresLock(Run(codec, Start(ids, durable, now), events).value);
  }

  lemma SafeIgnoresLock(s: State)
    ensures Send.Safe(AsSend(s)) ==> Send.Safe(s.send)
  {
    if Send.Safe(AsSend(s)) {
      forall tx | tx in s.send.posted && Send.Unresolved(s.send, tx)
        ensures Send.JournalHas(s.send, tx.payload.sender, tx.record.hash)
      {
        assert Send.Unresolved(AsSend(s), tx);
      }
    }
  }

  // ---------------------------------------------------------------- timers that keep up

  /** The clock gets no further than two renewal intervals past the last grant or renewal of whoever works, and the
      session is not locked under it; storage keeps the lease over a restart. */
  ghost predicate Prompt(s: State, e: Event) {
    && (e.Elsewhere? && e.e.Wait? ==> forall c :: c in s.send.contexts && Send.Working(s.send.contexts[c].pc) ==>
          c in s.tickets && s.store.now + e.e.ms <= s.tickets[c].granted + 2 * Lock.RenewEvery(TTL))
    && (e == Elsewhere(Lock.LockSession) ==> NobodyWorks(s))
  }

  ghost predicate PromptRun(codec: Codec, s: State, events: seq<Event>) {
    if |events| == 0 then true
    else
      var before := Run(codec, s, events[..|events| - 1]);
      PromptRun(codec, s, events[..|events| - 1]) && before.Some? && Prompt(before.value, events[|events| - 1])
  }

  lemma {:induction false} PromptIsSparing(codec: Codec, ids: set<nat>, now: nat, events: seq<Event>)
    requires Run(codec, Start(ids, true, now), events).Some? && PromptRun(codec, Start(ids, true, now), events)
    ensures SparingRun(codec, Start(ids, true, now), events)
    ensures Run(codec, Start(ids, true, now), events).value.store.durable
  {
    if |events| > 0 {
      var before, e := events[..|events| - 1], events[|events| - 1];
      PromptIsSparing(codec, ids, now, before);
      var s := Run(codec, Start(ids, true, now), before).value;
      StaysDurable(codec, s, e);
      Lock.RenewalsComeInTime(TTL);
      hide Next, Run;
    }
  }

  lemma StaysDurable(codec: Codec, s: State, e: Event)
    requires Next(codec, s, e).Some?
    ensures Next(codec, s, e).value.store.durable == s.store.durable
  {
    hide Send.Perform;
  }

  predicate Works(s: State, c: nat) {
    c in s.send.contexts && Send.Working(s.send.contexts[c].pc)
  }

  /** With session storage and timers that miss at most one renewal, over any schedule of any contexts, and any other
      users of the lock: every unresolved hash is journalled and one context works at a time. */
  lemma PromptSendsAreSafe(codec: Codec, ids: set<nat>, now: nat, events: seq<Event>, c: nat, d: nat)
    requires Run(codec, Start(ids, true, now), events).Some? && PromptRun(codec, Start(ids, true, now), events)
    ensures var s := Run(codec, Start(ids, true, now), events).value;
            && Send.Safe(s.send)
            && (Works(s, c) && Works(s, d) ==> c == d)
  {
    PromptIsSparing(codec, ids, now, events);
    LeasedSendsAreJournalled(codec, ids, true, now, events);
    var shown := RunRefines(codec, ids, true, now, events);
    hide Run, LockOf, Send.Safe;
  }

  // ---------------------------------------------------------------- the flag

  /** Before its last look at the flag, or done. */
  predicate BeforeLastGuard(pc: Send.Pc) {
    && !pc.Announced? && !pc.Posted? && !pc.Uncertain? && !pc.Watching? && !pc.Settled?
  }

  predicate Entered(e: Event, c: nat) {
    e.Enter? && e.c == c
  }

  predicate Barred(s: State, c: nat) {
    c in s.lost && (c in s.send.contexts ==> BeforeLastGuard(s.send.contexts[c].pc))
  }

  /** An unguarded await takes no context past its last look at the flag. */
  lemma UnguardedStaysBefore(codec: Codec, s: Send.State, c: nat, act: Send.Act)
    requires c in s.contexts && !Guarded(act) && BeforeLastGuard(s.contexts[c].pc)
    requires Send.Perform(codec, s, c, act).Some?
    ensures BeforeLastGuard(Send.Perform(codec, s, c, act).value.contexts[c].pc) && !act.Post?
  {
    hide PrepareCall, CheckCall, ReceiptOutcome;
  }

  lemma BarredStays(codec: Codec, s: State, e: Event, c: nat)
    requires Barred(s, c) && Next(codec, s, e).Some? && !Entered(e, c)
    ensures Barred(Next(codec, s, e).value, c) && e != Await(c, Send.Post)
  {
    if e.Await? {
      Send.FrameOfStep(codec, AsSend(s), e.c, e.act);
      if e.c == c { UnguardedStaysBefore(codec, AsSend(s), c, e.act); }
    }
    hide Send.Perform, Lock.Acquire, Lock.Renew, Lock.Release, Lock.Lookup, StoreAfter;
  }

  /** A renewal is refused exactly when the lease is no longer the context's. */
  lemma RefusedExactlyWhenLost(codec: Codec, s: State, c: nat)
    requires Linked(s) && c in s.tickets
    ensures Lock.Renew(s.store, s.tickets[c].owner, Some(TTL)).1 <==> LockOf(s) == Some(c)
    ensures LockOf(s) != Some(c) ==> c in Next(codec, s, Renewal(c)).value.lost
  {
    AfterRenew(s.store, s.tickets[c].owner);
    hide Lock.Renew, Lock.Lookup;
  }

  /** The context's renewal is refused, or no answer comes back. */
  predicate Refusal(s: State, e: Event, c: nat) {
    e == RenewalFails(c)
    || (e == Renewal(c) && c in s.tickets && !Lock.Renew(s.store, s.tickets[c].owner, Some(TTL)).1)
  }

  /** A context whose renewal was refused before it last looked at its flag never posts what it has in hand, whatever
      else happens. */
  lemma RefusedNeverPosts(codec: Codec, s: State, refusal: Event, events: seq<Event>, c: nat)
    requires Refusal(s, refusal, c) && (c in s.send.contexts ==> BeforeLastGuard(s.send.contexts[c].pc))
    requires Next(codec, s, refusal).Some? && Run(codec, Next(codec, s, refusal).value, events).Some?
    requires forall i :: 0 <= i < |events| ==> !Entered(events[i], c)
    ensures Await(c, Send.Post) !in events
  {
    assert Barred(Next(codec, s, refusal).value, c);
    hide Next, Barred;
    BarredNeverPosts(codec, Next(codec, s, refusal).value, events, c);
  }

  lemma {:induction false} BarredNeverPosts(codec: Codec, s: State, events: seq<Event>, c: nat)
    requires Barred(s, c) && Run(codec, s, events).Some?
    requires forall i :: 0 <= i < |events| ==> !Entered(events[i], c)
    ensures Barred(Run(codec, s, events).value, c)
    ensures Await(c, Send.Post) !in events
  {
    hide Next, Barred;
    if |events| > 0 {
      var before, e := events[..|events| - 1], events[|events| - 1];
      BarredNeverPosts(codec, s, before, c);
      BarredStays(codec, Run(codec, s, before).value, e, c);
      assert events == before + [e];
    }
  }
}

/** The signing lock with the awaits inside its operations: a lookup that finds nothing in memory asks storage,
    and one that finds nothing live there removes the entry, each time letting other operations in between.
    Only acquisitions are queued behind one another. Session storage is there. */
module LockInterleaving {
  import opened LockProtocol
  import opened Wrappers

  datatype Request = Acquiring(owner: Owner, ttl: Option<int>) | Renewing(owner: Owner,
      ttl: Option<int>) | Releasing(owner: Owner)

  /** What an operation waits for: the answer of storage, or the removal it asked for. */
  datatype Phase = Reading | Removing

  datatype Pending = Pending(request: Request, phase: Phase)

  datatype State = State(memory: Option<Lease>, stored: Option<Lease>, now: nat, held: map<Owner, int>,
      inFlight: map<nat, Pending>)

  datatype Step =
    | Begin(id: nat, request: Request)
    | Answered(id: nat)
    | Removed(id: nat)
    | TornDown                        // the service worker: memory and operations are lost, storage is not
    | SessionLocked                   // the lease is wiped in memory and in storage
    | Elapse(ms: nat)

  function Start(now: nat): State {
    State(None, None, now, map[], map[])
  }

  /** The part of an operation after its lookup, which runs without a break. */
  function Finish(s: State, request: Request, active: Option<Lease>): State {
    match request
    case Acquiring(owner, ttl) =>
      if active.Some? then s else Grant(s, owner, ttl)
    case Renewing(owner, ttl) =>
      if active.None? || active.value.owner != owner then s else Grant(s, owner, ttl)
    case Releasing(owner) =>
      var left := s.(held := s.held - {owner});
      if active.None? || active.value.owner != owner then left else left.(memory := None, stored := None)
  }

  function Grant(s: State, owner: Owner, ttl: Option<int>): State {
    var lease := Some(Lease(owner, s.now + Ttl(ttl)));
    s.(memory := lease, stored := lease, held := s.held[owner := s.now + Ttl(ttl)])
  }

  predicate AcquireInFlight(s: State) {
    exists id :: id in s.inFlight && s.inFlight[id].request.Acquiring?
  }

  predicate Enabled(s: State, step: Step, queued: bool) {
    match step
    case Begin(id, request) => id !in s.inFlight && (queued && request.Acquiring? ==> !AcquireInFlight(s))
    case Answered(id) => id in s.inFlight && s.inFlight[id].phase.Reading?
    case Removed(id) => id in s.inFlight && s.inFlight[id].phase.Removing?
    case _ => true
  }

  function Take(s: State, step: Step): State
    requires Enabled(s, step, false)
  {
    match step
    case Begin(id, request) =>
      if Live(s.memory, s.now) then Finish(s, request, s.memory)
      else s.(memory := None, inFlight := s.inFlight[id := Pending(request, Reading)])
    case Answered(id) =>
      var request := s.inFlight[id].request;
      if Live(s.stored, s.now) then Finish(s.(memory := s.stored, inFlight := s.inFlight - {id}), request, s.stored)
      else s.(inFlight := s.inFlight[id := Pending(request, Removing)])
    case Removed(id) =>
      Finish(s.(stored := None, inFlight := s.inFlight - {id}), s.inFlight[id].request, None)
    case TornDown => s.(memory := None, inFlight := map[])
    case SessionLocked => s.(memory := None, stored := None)
    case Elapse(ms) => s.(now := s.now + ms)
  }

  // ---------------------------------------------------------------- the invariant

  predicate Relies(s: State, owner: Owner) {
    owner in s.held && s.held[owner] > s.now
  }

  /** The lease that a lookup would find now. */
  function Effective(s: State): Option<Lease> {
    if Live(s.memory, s.now) then s.memory else if Live(s.stored, s.now) then s.stored else None
  }

  predicate RemovalInFlight(s: State) {
    exists id :: id in s.inFlight && s.inFlight[id].phase.Removing?
  }

  ghost predicate OneAcquire(s: State) {
    forall i, j :: i in s.inFlight && j in s.inFlight ==>
        s.inFlight[i].request.Acquiring? && s.inFlight[j].request.Acquiring? ==> i == j
  }

  /** A lease that lives in storage alone, or that an acquisition is about to see, is in no danger of removal. */
  ghost predicate Guarded(s: State) {
    Effective(s).Some? && (AcquireInFlight(s) || !Live(s.memory, s.now)) ==>
        Live(s.stored, s.now) && !RemovalInFlight(s)
  }

  ghost predicate Sound(s: State) {
    && (forall owner :: Relies(s, owner) ==> Effective(s) == Some(Lease(owner, s.held[owner])))
    && (Live(s.memory, s.now) && Live(s.stored, s.now) ==> s.memory == s.stored)
    && Guarded(s) && OneAcquire(s)
  }

  /** The service worker is torn down only while every lease relied on is still in storage, and the session is
      locked only while nobody relies on one. */
  ghost predicate Spares(s: State, step: Step) {
    && (step == TornDown ==> forall owner :: Relies(s, owner) ==> s.stored == Some(Lease(owner, s.held[owner])))
    && (step == SessionLocked ==> forall owner :: !Relies(s, owner))
  }

  lemma BeginKeepsSound(s: State, id: nat, request: Request)
    requires Sound(s) && Enabled(s, Begin(id, request), true)
    ensures Sound(Take(s, Begin(id, request)))
  {
    var s' := Take(s, Begin(id, request));
    if !Live(s.memory, s.now) {
      assert forall i :: i in s.inFlight ==> i in s'.inFlight && s'.inFlight[i] == s.inFlight[i];
      assert RemovalInFlight(s') ==> RemovalInFlight(s);
    } else {
      assert s'.inFlight == s.inFlight;
      assert AcquireInFlight(s') == AcquireInFlight(s) && RemovalInFlight(s') == RemovalInFlight(s);
    }
  }

  /** Taking an operation out of flight, or moving it on, adds no other. */
  lemma FewerInFlight(s: State, s': State, id: nat)
    requires id in s.inFlight && (s'.inFlight == s.inFlight - {id})
    ensures AcquireInFlight(s') ==> AcquireInFlight(s)
    ensures RemovalInFlight(s') ==> RemovalInFlight(s)
    ensures OneAcquire(s) ==> OneAcquire(s')
    ensures OneAcquire(s) && s.inFlight[id].request.Acquiring? ==> !AcquireInFlight(s')
  {
  }

  lemma AnsweredKeepsSound(s: State, id: nat)
    requires Sound(s) && Enabled(s, Answered(id), true)
    ensures Sound(Take(s, Answered(id)))
  {
    var s' := Take(s, Answered(id));
    if Live(s.stored, s.now) {
      FewerInFlight(s, s', id);
    } else {
      assert s'.inFlight[id].request == s.inFlight[id].request;
      assert forall i :: i in s.inFlight <==> i in s'.inFlight;
      assert forall i :: i in s.inFlight ==> s'.inFlight[i].request == s.inFlight[i].request;
    }
  }

  lemma RemovedKeepsSound(s: State, id: nat)
    requires Sound(s) && Enabled(s, Removed(id), true)
    ensures Sound(Take(s, Removed(id)))
  {
    var s' := Take(s, Removed(id));
    FewerInFlight(s, s', id);
    assert RemovalInFlight(s);
    if s.inFlight[id].request.Acquiring? { assert AcquireInFlight(s); }
  }

  lemma StepKeepsSound(s: State, step: Step)
    requires Sound(s) && Enabled(s, step, true) && Spares(s, step)
    ensures Sound(Take(s, step))
  {
    match step
    case Begin(id, request) => BeginKeepsSound(s, id, request);
    case Answered(id) => AnsweredKeepsSound(s, id);
    case Removed(id) => RemovedKeepsSound(s, id);
    case TornDown => TornDownIsSafeWhen(s);
    case SessionLocked => SessionLockedIsSafeWhen(s);
    case Elapse(ms) => ElapseKeepsSound(s, ms);
  }

  lemma ElapseKeepsSound(s: State, ms: nat)
    requires Sound(s)
    ensures Sound(Take(s, Elapse(ms)))
  {
    var s' := Take(s, Elapse(ms));
    assert AcquireInFlight(s') == AcquireInFlight(s) && RemovalInFlight(s') == RemovalInFlight(s);
    forall owner | Relies(s', owner) ensures Effective(s') == Some(Lease(owner, s'.held[owner])) {
      assert Relies(s, owner);
    }
  }

  /** Tearing the service worker down keeps every lease exactly when each one relied on is still in storage. */
  lemma TornDownIsSafeWhen(s: State)
    requires Sound(s)
    ensures Sound(Take(s, TornDown)) <==> Spares(s, TornDown)
  {
    var s' := Take(s, TornDown);
    assert !AcquireInFlight(s') && !RemovalInFlight(s');
    assert forall owner :: Relies(s', owner) <==> Relies(s, owner);
  }

  /** Locking the session does so exactly when nobody relies on a lease. */
  lemma SessionLockedIsSafeWhen(s: State)
    requires Sound(s)
    ensures Sound(Take(s, SessionLocked)) <==> Spares(s, SessionLocked)
  {
    var s' := Take(s, SessionLocked);
    assert Effective(s').None?;
    assert forall owner :: Relies(s', owner) <==> Relies(s, owner);
  }

  // ---------------------------------------------------------------- every run

  function RunFrom(s: State, steps: seq<Step>, queued: bool): Option<State> {
    if |steps| == 0 then Some(s)
    else
      var before, last := RunFrom(s, steps[..|steps| - 1], queued), steps[|steps| - 1];
      if before.None? || !Enabled(before.value, last, queued) then None else Some(Take(before.value, last))
  }

  ghost predicate SparingRun(s: State, steps: seq<Step>) {
    if |steps| == 0 then true
    else
      var before := RunFrom(s, steps[..|steps| - 1], true);
      SparingRun(s, steps[..|steps| - 1]) && before.Some? && Spares(before.value, steps[|steps| - 1])
  }

  lemma {:induction false} EveryRunIsSound(now: nat, steps: seq<Step>)
    requires RunFrom(Start(now), steps, true).Some? && SparingRun(Start(now), steps)
    ensures Sound(RunFrom(Start(now), steps, true).value)
  {
    hide Sound, Spares, Take, Enabled;
    if |steps| == 0 {
      StartIsSound(now);
    } else {
      EveryRunIsSound(now, steps[..|steps| - 1]);
      StepKeepsSound(RunFrom(Start(now), steps[..|steps| - 1], true).value, steps[|steps| - 1]);
    }
  }

  lemma StartIsSound(now: nat)
    ensures Sound(Start(now))
  {
    assert !AcquireInFlight(Start(now));
  }

  /** With acquisitions queued, no interleaving of the awaits of any operations lets two contexts rely on the
      lock, as long as the service worker is not torn down while a lease is missing from storage. */
  lemma QueueKeepsLeasesApart(now: nat, steps: seq<Step>, a: Owner, b: Owner)
    requires RunFrom(Start(now), steps, true).Some? && SparingRun(Start(now), steps)
    requires var s := RunFrom(Start(now), steps, true).value; Relies(s, a) && Relies(s, b)
    ensures a == b
  {
    EveryRunIsSound(now, steps);
    hide Effective, RunFrom;
    var s := RunFrom(Start(now), steps, true).value;
    assert Effective(s) == Some(Lease(a, s.held[a])) && Effective(s) == Some(Lease(b, s.held[b]));
  }

  // ---------------------------------------------------------------- without interruption

  /** The lock without its awaits. */
  function Atomic(s: State): World {
    World(Store(true, s.memory, s.stored, s.now), s.held)
  }

  function EventOf(request: Request): Event {
    match request
    case Acquiring(owner, ttl) => Acquires(owner, ttl)
    case Renewing(owner, ttl) => Renews(owner, ttl)
    case Releasing(owner) => Releases(owner)
  }

  /** The steps of an operation that nothing comes between. */
  function Alone(s: State, id: nat, request: Request): seq<Step> {
    if Live(s.memory, s.now) then [Begin(id, request)]
    else if Live(s.stored, s.now) then [Begin(id, request), Answered(id)]
    else [Begin(id, request), Answered(id), Removed(id)]
  }

  /** The state after a lookup. */
  function Looked(s: State): State {
    var store := Lookup(Atomic(s).store);
    s.(memory := store.memory, stored := store.stored)
  }

  lemma AloneFinishes(s: State, id: nat, request: Request, queued: bool)
    requires Enabled(s, Begin(id, request), queued)
    ensures RunFrom(s, Alone(s, id, request), queued) == Some(Finish(Looked(s), request, Looked(s).memory))
  {
    hide RunFrom, Finish;
    NoSteps(s, queued);
    var run, s' := More(s, [], s, Begin(id, request), queued);
    var looked := Looked(s);
    if Live(s.memory, s.now) {
      assert looked == s;
    } else {
      run, s' := More(s, run, s', Answered(id), queued);
      if Live(s.stored, s.now) {
        assert s.inFlight[id := Pending(request, Reading)] - {id} == s.inFlight;
        assert s' == Finish(looked, request, s.stored);
      } else {
        run, s' := More(s, run, s', Removed(id), queued);
        assert s.inFlight[id := Pending(request, Reading)][id := Pending(request, Removing)] - {id} == s.inFlight;
        assert s' == Finish(looked, request, None);
      }
    }
    assert run == Alone(s, id, request);
  }

  /** An operation that nothing comes between is the atomic one of module LockProtocol. */
  lemma AloneIsAtomic(s: State, id: nat, request: Request, queued: bool)
    requires Enabled(s, Begin(id, request), queued)
    ensures var s' := RunFrom(s, Alone(s, id, request), queued);
            && s'.Some? && s'.value.inFlight == s.inFlight
            && Atomic(s'.value) == LockProtocol.Next(Atomic(s), EventOf(request))
  {
    AloneFinishes(s, id, request, queued);
    LookupKeeps(Atomic(s).store);
    hide RunFrom, Lookup, Alone;
  }

  lemma LookupKeeps(store: Store)
    ensures Lookup(store).durable == store.durable && Lookup(store).now == store.now
  {
  }

  // ---------------------------------------------------------------- what breaks it

  lemma More(s0: State, steps: seq<Step>, s: State, step: Step, queued: bool) returns (longer: seq<Step>, s': State)
    requires RunFrom(s0, steps, queued) == Some(s) && Enabled(s, step, queued)
    ensures longer == steps + [step] && s' == Take(s, step) && RunFrom(s0, longer, queued) == Some(s')
  {
    hide Take;
    longer, s' := steps + [step], Take(s, step);
    assert longer[..|steps|] == steps;
  }

  lemma NoSteps(s: State, queued: bool)
    ensures RunFrom(s, [], queued) == Some(s)
  {
  }

  /** An acquisition that runs without a break, from a lookup that finds nothing. */
  lemma AcquireThrough(s0: State, steps: seq<Step>, s: State, id: nat, owner: Owner, queued: bool)
    returns (longer: seq<Step>, s': State)
    requires RunFrom(s0, steps, queued) == Some(s) && Enabled(s, Begin(id, Acquiring(owner, None)), queued)
    requires Effective(s).None?
    ensures RunFrom(s0, longer, queued) == Some(s')
    ensures s' == Grant(s, owner, None)
  {
    hide RunFrom;
    longer, s' := More(s0, steps, s, Begin(id, Acquiring(owner, None)), queued);
    longer, s' := More(s0, longer, s', Answered(id), queued);
    longer, s' := More(s0, longer, s', Removed(id), queued);
    assert s'.inFlight == s.inFlight;
  }

  /** Without the queue two acquisitions that ask storage at the same time are both granted. */
  lemma UnqueuedAcquiresOverlap()
    ensures exists steps ::
              && RunFrom(Start(0), steps, false).Some?
              && Relies(RunFrom(Start(0), steps, false).value, "a") &&
                  Relies(RunFrom(Start(0), steps, false).value, "b")
  {
    hide RunFrom;
    NoSteps(Start(0), false);
    var run, s := More(Start(0), [], Start(0), Begin(0, Acquiring("a", None)), false);
    run, s := More(Start(0), run, s, Begin(1, Acquiring("b", None)), false);
    run, s := More(Start(0), run, s, Answered(0), false);
    run, s := More(Start(0), run, s, Answered(1), false);
    run, s := More(Start(0), run, s, Removed(0), false);
    run, s := More(Start(0), run, s, Removed(1), false);
    assert Relies(s, "a") && Relies(s, "b");
  }

  /** With the queue: the renewal of an expired holder asks storage to drop its entry, a newer lease gets there
      first and is dropped instead, and once the service worker is torn down a third context is let in. */
  lemma LateRemovalLosesALease()
    ensures exists steps ::
              && RunFrom(Start(0), steps, true).Some?
              && Relies(RunFrom(Start(0), steps, true).value, "b") && Relies(RunFrom(Start(0), steps, true).value, "c")
  {
    hide RunFrom;
    NoSteps(Start(0), true);
    var run, s := AcquireThrough(Start(0), [], Start(0), 0, "a", true);
    run, s := More(Start(0), run, s, Elapse(MAX_TTL_MS), true);
    run, s := More(Start(0), run, s, Begin(0, Renewing("a", None)), true);
    run, s := More(Start(0), run, s, Answered(0), true);
    run, s := AcquireThrough(Start(0), run, s, 1, "b", true);
    run, s := More(Start(0), run, s, Removed(0), true);
    run, s := More(Start(0), run, s, TornDown, true);
    run, s := AcquireThrough(Start(0), run, s, 0, "c", true);
    assert Relies(s, "b") && Relies(s, "c");
  }
}

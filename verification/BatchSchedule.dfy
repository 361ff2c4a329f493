/** The adaptive proof-batch scheduler as a clocked state machine. Doubles are modelled as reals; `None` stands
    for not-a-number in `oldest`, minus infinity in `lastTarget`, and any non-finite argument. */
module BatchSchedule {
  import opened Wrappers

  const MAX_CLAIMS: int := 40
  const SLOT: real := 2.0
  const FORMATION: real := 0.5
  const MARGIN: real := 0.15
  const OVERHEAD: real := 0.10
  const FASTEST: real := 0.005
  const SLOWEST: real := 0.20

  datatype Policy = Policy(secondsPerClaim: real, target: Option<real>, oldest: Option<real>, lastTarget: Option<real>)

  function Initial(): Policy {
    Policy(0.05, None, None, None)
  }

  function Max(a: real, b: real): real { if a >= b then a else b }

  function Clamp(x: real, low: real, high: real): real { if x < low then low else if x > high then high else x }

  function EstimatedSeconds(p: Policy, claims: int): real {
    OVERHEAD + p.secondsPerClaim * claims as real
  }

  function Reset(p: Policy): Policy {
    p.(target := None, oldest := None)
  }

  /** Move `target` on by whole slots until it lies strictly after `earliest`. */
  function NextFreeSlot(target: real, earliest: real): real {
    if target <= earliest then target + (((earliest - target) / SLOT).Floor + 1) as real * SLOT else target
  }

  function SlotsAfter(target: real, n: nat): real {
    target + n as real * SLOT
  }

  lemma NextFreeSlotIsFirst(target: real, earliest: real)
    ensures var t := NextFreeSlot(target, earliest);
            && t > earliest && t >= target
            && (t == target || t - SLOT <= earliest)
            && exists n: nat :: SlotsAfter(target, n) == t
  {
    if target <= earliest {
      var q := (earliest - target) / SLOT;
      assert q.Floor as real <= q < q.Floor as real + 1.0;
      assert NextFreeSlot(target, earliest) == SlotsAfter(target, q.Floor + 1);
    } else {
      assert NextFreeSlot(target, earliest) == SlotsAfter(target, 0);
    }
  }

  function ChooseTarget(p: Policy, now: real, claims: int, nextSlot: real): real {
    var free := NextFreeSlot(nextSlot, now + EstimatedSeconds(p, claims) + MARGIN);
    if p.lastTarget.None? then free else Max(free, p.lastTarget.value + SLOT)
  }

  /** Neither the estimate nor the choice of a target looks at the batch that is forming. */
  lemma ChoiceIgnoresBatch(p: Policy, q: Policy, now: real, claims: int, nextSlot: real)
    requires p.secondsPerClaim == q.secondsPerClaim && p.lastTarget == q.lastTarget
    ensures EstimatedSeconds(p, claims) == EstimatedSeconds(q, claims) &&
        ChooseTarget(p, now, claims, nextSlot) == ChooseTarget(q, now, claims, nextSlot)
  {
  }

  predicate ReadyArguments(now: Option<real>, claims: int, nextSlot: Option<real>) {
    now.Some? && nextSlot.Some? && 0 <= claims <= MAX_CLAIMS
  }

  /** One observation; `None` is a thrown error. */
  function Ready(p: Policy, now: Option<real>, claims: int, nextSlot: Option<real>): Option<(Policy, bool)> {
    if !ReadyArguments(now, claims, nextSlot) then None
    else if claims == 0 then Some((Reset(p), false))
    else
      var oldest := if p.oldest.Some? then p.oldest.value else now.value;
      var target := if p.target.Some? then p.target.value else ChooseTarget(p, now.value, claims, nextSlot.value);
      var due := Max(oldest + FORMATION, target - EstimatedSeconds(p, claims) - MARGIN);
      Some((p.(oldest := Some(oldest), target := Some(target)), claims == MAX_CLAIMS || now.value >= due))
  }

  /** A finished proof job; `None` is a thrown error. */
  function Completed(p: Policy, now: Option<real>, claims: int, seconds: Option<real>): Option<Policy> {
    if claims < 1 || claims > MAX_CLAIMS || seconds.None? || seconds.value < 0.0 || now.None? then None
    else
      var observed := Max(FASTEST, (seconds.value - OVERHEAD) / claims as real);
      var last := if p.target.Some? then Max(p.target.value, now.value) else now.value;
      Some(Reset(p.(secondsPerClaim := Clamp(0.8 * p.secondsPerClaim + 0.2 * observed, FASTEST, SLOWEST),
          lastTarget := Some(last))))
  }

  // ---------------------------------------------------------------- runs

  datatype Event =
    | Observe(now: real, claims: int, nextSlot: real)
    | Complete(now: real, claims: int, seconds: real)
    | Drop

  /** The policy, and the target recorded for every completed batch, oldest first. */
  datatype World = World(policy: Policy, recorded: seq<real>)

  function Next(w: World, e: Event): Option<World> {
    match e
    case Observe(now, claims, nextSlot) =>
      var r := Ready(w.policy, Some(now), claims, Some(nextSlot));
      if r.None? then None else Some(w.(policy := r.value.0))
    case Complete(now, claims, seconds) =>
      var r := Completed(w.policy, Some(now), claims, Some(seconds));
      if r.None? then None else Some(World(r.value, w.recorded + [r.value.lastTarget.value]))
    case Drop => Some(w.(policy := Reset(w.policy)))
  }

  /** The world after a row of events from a new policy, if none of them threw. */
  function Run(events: seq<Event>): Option<World> {
    if |events| == 0 then Some(World(Initial(), []))
    else
      var before := Run(events[..|events| - 1]);
      if before.None? then None else Next(before.value, events[|events| - 1])
  }

  /** The observations of the batch that is forming: those since it was last empty, completed or dropped. */
  function Forming(events: seq<Event>): (batch: seq<Event>)
    ensures forall e :: e in batch ==> e.Observe? && e.claims > 0
  {
    if |events| == 0 then []
    else
      var last := events[|events| - 1];
      if last.Observe? && last.claims > 0 then Forming(events[..|events| - 1]) + [last] else []
  }

  lemma FormingGrows(events: seq<Event>, e: Event)
    ensures Forming(events + [e]) == if e.Observe? && e.claims > 0 then Forming(events) + [e] else []
    ensures Run(events + [e]) == if Run(events).None? then None else Next(Run(events).value, e)
  {
    assert (events + [e])[..|events|] == events;
  }

  /** Every completion of the run follows an observation of its batch. */
  predicate Observed(events: seq<Event>) {
    forall i :: 0 <= i < |events| && events[i].Complete? ==> Forming(events[..i]) != []
  }

  predicate PolicyOk(p: Policy) {
    && FASTEST <= p.secondsPerClaim <= SLOWEST
    && (p.target.Some? <==> p.oldest.Some?)
    && (p.target.Some? && p.lastTarget.Some? ==> p.target.value >= p.lastTarget.value + SLOT)
  }

  predicate WorldOk(w: World) {
    && PolicyOk(w.policy)
    && (w.policy.lastTarget.Some? <==> |w.recorded| > 0)
    && (|w.recorded| > 0 ==> w.policy.lastTarget == Some(w.recorded[|w.recorded| - 1]))
  }

  /** Recorded targets lie at least one slot apart. */
  predicate Paced(recorded: seq<real>) {
    forall x, y :: 0 <= x < y < |recorded| ==> recorded[x] + SLOT <= recorded[y]
  }

  lemma ObservationKeepsPolicy(p: Policy, now: Option<real>, claims: int, nextSlot: Option<real>)
    requires PolicyOk(p) && Ready(p, now, claims, nextSlot).Some?
    ensures PolicyOk(Ready(p, now, claims, nextSlot).value.0)
  {
  }

  lemma CompletionKeepsPolicy(p: Policy, now: Option<real>, claims: int, seconds: Option<real>)
    requires PolicyOk(p) && Completed(p, now, claims, seconds).Some?
    ensures PolicyOk(Completed(p, now, claims, seconds).value)
  {
  }

  /** A completion moves the recorded target on by a slot exactly when the batch had a target, or nothing was
      recorded yet, or a slot has passed by the clock. */
  lemma TargetsAdvanceWhen(p: Policy, now: real, claims: int, seconds: real)
    requires PolicyOk(p) && Completed(p, Some(now), claims, Some(seconds)).Some? && p.lastTarget.Some?
    ensures Completed(p, Some(now), claims, Some(seconds)).value.lastTarget.value >= p.lastTarget.value + SLOT
            <==> p.target.Some? || now >= p.lastTarget.value + SLOT
  {
  }

  /** A completion that no observation preceded can even move the recorded target back. */
  lemma UnobservedCompletionFallsBack()
    ensures var p := Policy(0.05, None, None, Some(10.0));
            && PolicyOk(p) && Completed(p, Some(5.0), 1, Some(0.15)).Some?
            && Completed(p, Some(5.0), 1, Some(0.15)).value.lastTarget == Some(5.0)
  {
  }

  lemma StepKeepsWorld(w: World, e: Event)
    requires WorldOk(w) && Next(w, e).Some?
    ensures WorldOk(Next(w, e).value)
    ensures Paced(w.recorded) && (e.Complete? ==> w.policy.target.Some?) ==> Paced(Next(w, e).value.recorded)
  {
    hide EstimatedSeconds, NextFreeSlot;
    match e
    case Observe(now, claims, nextSlot) => ObservationKeepsPolicy(w.policy, Some(now), claims, Some(nextSlot));
    case Complete(now, claims, seconds) => CompletionKeepsPolicy(w.policy, Some(now), claims, Some(seconds));
    case Drop =>
  }

  lemma {:induction false} EveryRunKeepsWorld(events: seq<Event>)
    requires Run(events).Some?
    ensures WorldOk(Run(events).value)
  {
    hide Next, WorldOk;
    if |events| > 0 {
      EveryRunKeepsWorld(events[..|events| - 1]);
      StepKeepsWorld(Run(events[..|events| - 1]).value, events[|events| - 1]);
    } else {
      NothingRecordedInitially();
    }
  }

  lemma NothingRecordedInitially()
    ensures WorldOk(World(Initial(), []))
  {
  }

  /** In every run the estimate stays between 5 ms and 200 ms a claim; and when completions follow observed
      batches, recorded targets are at least one slot apart. */
  lemma {:induction false} EveryRunIsPaced(events: seq<Event>)
    requires Run(events).Some?
    ensures FASTEST <= Run(events).value.policy.secondsPerClaim <= SLOWEST
    ensures Observed(events) ==> Paced(Run(events).value.recorded)
  {
    hide Next, Forming;
    EveryRunKeepsWorld(events);
    if |events| > 0 && Observed(events) {
      var before, e := events[..|events| - 1], events[|events| - 1];
      assert forall i :: 0 <= i < |before| ==> before[..i] == events[..i];
      EveryRunIsPaced(before);
      EveryRunKeepsWorld(before);
      FirstSeenDecides(before);
      StepKeepsWorld(Run(before).value, e);
    }
  }

  // ---------------------------------------------------------------- when a batch is released

  lemma RoomIsLeft(p: Policy, now: real, claims: int, nextSlot: real)
    requires PolicyOk(p) && 1 <= claims <= MAX_CLAIMS && p.target.None?
    ensures var r := Ready(p, Some(now), claims, Some(nextSlot));
            var earliest := now + EstimatedSeconds(p, claims) + MARGIN;
            && r.Some? && r.value.0.target.Some?
            && r.value.0.target.value > earliest && r.value.0.target.value >= nextSlot
            && (|| r.value.0.target.value == nextSlot || r.value.0.target.value <= earliest + SLOT
                || (p.lastTarget.Some? && r.value.0.target.value == p.lastTarget.value + SLOT))
            && (|| (exists n: nat :: SlotsAfter(nextSlot, n) == r.value.0.target.value)
                || (p.lastTarget.Some? && r.value.0.target.value == p.lastTarget.value + SLOT))
  {
    NextFreeSlotIsFirst(nextSlot, now + EstimatedSeconds(p, claims) + MARGIN);
  }

  /** The target chosen for a new batch leaves room for the proof and the margin, and is the first slot of the
      observed phase that does, unless the previous target forces a later one. */
  lemma TargetLeavesRoom(p: Policy, now: real, claims: int, nextSlot: real)
    requires PolicyOk(p) && 1 <= claims <= MAX_CLAIMS && p.target.None?
    ensures var r := Ready(p, Some(now), claims, Some(nextSlot));
            var earliest := now + (0.10 + p.secondsPerClaim * claims as real) + 0.15;
            && r.Some? && r.value.0.target.Some?
            && r.value.0.target.value > earliest && r.value.0.target.value >= nextSlot
            && (|| r.value.0.target.value == nextSlot || r.value.0.target.value <= earliest + 2.0
                || (p.lastTarget.Some? && r.value.0.target.value == p.lastTarget.value + 2.0))
            && (|| (exists n: nat :: SlotsAfter(nextSlot, n) == r.value.0.target.value)
                || (p.lastTarget.Some? && r.value.0.target.value == p.lastTarget.value + 2.0))
  {
    RoomIsLeft(p, now, claims, nextSlot);
    EstimateIs(p, claims);
    hide Ready, EstimatedSeconds, SlotsAfter;
  }

  /** What the policy keeps of a batch was all settled by the first observation of it. */
  predicate IsFirstSeen(p: Policy, first: Event)
    requires first.Observe?
  {
    Ready(Reset(p), Some(first.now), first.claims, Some(first.nextSlot)).Some?
    && p == Ready(Reset(p), Some(first.now), first.claims, Some(first.nextSlot)).value.0
  }

  /** In every run the policy is the one that the first observation of the forming batch left, whatever was
      observed since; without such a batch it has no target. */
  lemma {:induction false} FirstSeenDecides(events: seq<Event>)
    requires Run(events).Some?
    ensures var p, batch := Run(events).value.policy, Forming(events);
            if batch == [] then p.target.None? && p.oldest.None?
            else IsFirstSeen(p, batch[0]) && p.oldest == Some(batch[0].now) && p.target.Some?
  {
    hide ChooseTarget, EstimatedSeconds;
    if |events| > 0 {
      var before, e := events[..|events| - 1], events[|events| - 1];
      FirstSeenDecides(before);
      if e.Observe? && e.claims > 0 { ObservationKeepsFirst(Run(before).value.policy, Forming(before), e); }
    }
  }

  lemma ObservationKeepsFirst(p: Policy, batch: seq<Event>, e: Event)
    requires forall x :: x in batch ==> x.Observe?
    requires if batch == [] then p.target.None? && p.oldest.None?
             else IsFirstSeen(p, batch[0]) && p.oldest == Some(batch[0].now) && p.target.Some?
    requires e.Observe? && e.claims > 0 && Ready(p, Some(e.now), e.claims, Some(e.nextSlot)).Some?
    ensures var q := Ready(p, Some(e.now), e.claims, Some(e.nextSlot)).value.0;
            && IsFirstSeen(q, (batch + [e])[0]) && q.oldest == Some((batch + [e])[0].now) && q.target.Some?
            && (batch != [] ==> q == p)
  {
    hide EstimatedSeconds;
    var q := Ready(p, Some(e.now), e.claims, Some(e.nextSlot)).value.0;
    if batch == [] {
      assert Reset(p) == p;
      ChoiceIgnoresBatch(p, Reset(q), e.now, e.claims, e.nextSlot);
    } else {
      assert (batch + [e])[0] == batch[0];
    }
  }

  /** The observation that ends this run says that the batch is ready. */
  predicate Releases(events: seq<Event>, e: Event) {
    && e.Observe? && Run(events).Some?
    && var r := Ready(Run(events).value.policy, Some(e.now), e.claims, Some(e.nextSlot));
       r.Some? && r.value.1
  }

  lemma ReadyWhenDue(events: seq<Event>, e: Event)
    requires Run(events).Some? && e.Observe? && 0 <= e.claims <= MAX_CLAIMS
    ensures Releases(events, e) <==>
              && e.claims > 0
              && (|| e.claims == MAX_CLAIMS
                  || (&& Forming(events) != []
                      && var p, first := Run(events).value.policy, Forming(events)[0];
                         && e.now >= first.now + FORMATION
                         && e.now + EstimatedSeconds(p, e.claims) + MARGIN
                            >= ChooseTarget(p, first.now, first.claims, first.nextSlot)))
  {
    FirstSeenDecides(events);
    var p := Run(events).value.policy;
    if Forming(events) != [] {
      var first := Forming(events)[0];
      assert first in Forming(events);
      ChoiceIgnoresBatch(p, Reset(p), first.now, first.claims, first.nextSlot);
    }
    hide ChooseTarget, EstimatedSeconds;
  }

  lemma EstimateIs(p: Policy, claims: int)
    ensures EstimatedSeconds(p, claims) == 0.10 + p.secondsPerClaim * claims as real
  {
  }

  /** In every run a batch is ready exactly when it is full, or half a second has passed since it was first seen and
      a proof started now would need all the time that is left before the target chosen then. */
  lemma ReadyExactlyWhen(events: seq<Event>, e: Event)
    requires Run(events).Some? && e.Observe? && 0 <= e.claims <= MAX_CLAIMS
    ensures Releases(events, e) <==>
              && e.claims > 0
              && (|| e.claims == 40
                  || (&& Forming(events) != []
                      && var p, first := Run(events).value.policy, Forming(events)[0];
                         && e.now >= first.now + 0.5
                         && e.now + (0.10 + p.secondsPerClaim * e.claims as real) + 0.15
                            >= ChooseTarget(p, first.now, first.claims, first.nextSlot)))
  {
    ReadyWhenDue(events, e);
    EstimateIs(Run(events).value.policy, e.claims);
    hide ChooseTarget, EstimatedSeconds, Run, Forming, Releases;
  }

  lemma RoomBeforeTarget(p: Policy, first: Event)
    requires PolicyOk(p) && first.Observe? && first.claims > 0 && IsFirstSeen(p, first)
    ensures p.target.Some? && first.now + EstimatedSeconds(p, first.claims) + MARGIN < p.target.value
  {
    hide ChooseTarget;
    SameEstimate(p, Reset(p), first.claims);
    hide EstimatedSeconds;
    RoomIsLeft(Reset(p), first.now, first.claims, first.nextSlot);
  }

  lemma FormingHasRoom(events: seq<Event>)
    requires Run(events).Some? && Forming(events) != []
    ensures var p, first := Run(events).value.policy, Forming(events)[0];
            p.target.Some? && first.now + EstimatedSeconds(p, first.claims) + MARGIN < p.target.value
  {
    FirstSeenDecides(events);
    EveryRunKeepsWorld(events);
    hide EstimatedSeconds, Run, Forming, IsFirstSeen, PolicyOk;
    assert Forming(events)[0] in Forming(events);
    RoomBeforeTarget(Run(events).value.policy, Forming(events)[0]);
  }

  /** What the target is for: in every run a proof that was started when its batch was first seen, and took no longer
      than the overhead and the estimate for each claim, would end before the target with the margin to spare. */
  lemma ProofFitsBeforeTarget(events: seq<Event>, seconds: real)
    requires Run(events).Some? && Forming(events) != []
    requires seconds <= 0.10 + Run(events).value.policy.secondsPerClaim * Forming(events)[0].claims as real
    ensures var p := Run(events).value.policy;
            p.target.Some? && Forming(events)[0].now + seconds + 0.15 < p.target.value
  {
    FormingHasRoom(events);
    hide EstimatedSeconds, Run, Forming;
    EstimateIs(Run(events).value.policy, Forming(events)[0].claims);
  }

  lemma EstimateGrows(p: Policy, claims: int, more: int)
    requires p.secondsPerClaim >= 0.0 && claims <= more
    ensures EstimatedSeconds(p, claims) <= EstimatedSeconds(p, more)
  {
    assert p.secondsPerClaim * (more - claims) as real >= 0.0;
    assert more as real == claims as real + (more - claims) as real;
  }

  /** A row of observations of a batch that does not become empty. */
  predicate Watching(row: seq<Event>) {
    forall e :: e in row ==> e.Observe? && 1 <= e.claims <= MAX_CLAIMS
  }

  /** Observing a batch further changes nothing. */
  lemma {:induction false} WatchingChangesNothing(events: seq<Event>, row: seq<Event>)
    requires Run(events).Some? && Forming(events) != [] && Watching(row)
    ensures Run(events + row) == Run(events) && Forming(events + row) != []
    ensures Forming(events + row)[0] == Forming(events)[0]
  {
    if |row| == 0 {
      assert events + row == events;
    } else {
      var before, e := row[..|row| - 1], row[|row| - 1];
      WatchingChangesNothing(events, before);
      assert events + row == events + before + [e];
      FormingGrows(events + before, e);
      FirstSeenDecides(events + before);
      assert e in row;
      hide ChooseTarget, EstimatedSeconds, Forming, Run;
      ObservationKeepsFirst(Run(events).value.policy, Forming(events + before), e);
    }
  }

  /** Once a batch is ready, it stays ready at every later time and for every count not below, whatever was
      observed of it in between. */
  lemma ReadinessPersists(events: seq<Event>, e: Event, row: seq<Event>, later: Event)
    requires Releases(events, e) && Watching(row) && later.Observe?
    requires e.now <= later.now && e.claims <= later.claims <= MAX_CLAIMS
    ensures Releases(events + [e] + row, later)
  {
    EveryRunKeepsWorld(events);
    FirstSeenDecides(events);
    FormingGrows(events, e);
    WatchingChangesNothing(events + [e], row);
    hide Forming, Run, Next;
    StaysReady(Run(events).value.policy, e, later);
    hide Ready;
  }

  /** One observation after another. */
  lemma StaysReady(p: Policy, e: Event, later: Event)
    requires PolicyOk(p) && e.Observe? && later.Observe?
    requires Ready(p, Some(e.now), e.claims, Some(e.nextSlot)).Some?
    requires Ready(p, Some(e.now), e.claims, Some(e.nextSlot)).value.1
    requires e.now <= later.now && e.claims <= later.claims <= MAX_CLAIMS
    ensures var q := Ready(p, Some(e.now), e.claims, Some(e.nextSlot)).value.0;
            Ready(q, Some(later.now), later.claims, Some(later.nextSlot)) == Some((q, true))
  {
    EstimateGrows(p, e.claims, later.claims);
    hide ChooseTarget, EstimatedSeconds;
    var q := Ready(p, Some(e.now), e.claims, Some(e.nextSlot)).value.0;
    SameEstimate(p, q, e.claims);
    SameEstimate(p, q, later.claims);
  }

  lemma SameEstimate(p: Policy, q: Policy, claims: int)
    requires p.secondsPerClaim == q.secondsPerClaim
    ensures EstimatedSeconds(p, claims) == EstimatedSeconds(q, claims)
  {
  }

  lemma ReadyInTime(events: seq<Event>, e: Event)
    requires Run(events).Some? && Forming(events) != [] && e.Observe? && e.claims <= MAX_CLAIMS
    requires var p, first := Run(events).value.policy, Forming(events)[0];
             var lead := EstimatedSeconds(p, first.claims) + MARGIN;
             && first.claims <= e.claims
             && e.now >= first.now + SLOT && e.now >= first.nextSlot - lead
             && (p.lastTarget.Some? ==> e.now >= p.lastTarget.value + SLOT - lead)
    ensures Releases(events, e)
  {
    FirstSeenDecides(events);
    EveryRunKeepsWorld(events);
    var p, first := Run(events).value.policy, Forming(events)[0];
    assert first in Forming(events);
    RoomIsLeft(Reset(p), first.now, first.claims, first.nextSlot);
    EstimateGrows(p, first.claims, e.claims);
    SameEstimate(p, Reset(p), first.claims);
    hide ChooseTarget, EstimatedSeconds, Run, Forming;
  }

  /** In every run a batch is ready two seconds after it was first seen, unless the slot it was shown then or the
      target recorded before it keep it, and then no longer than they do. */
  lemma ReleasedInTime(events: seq<Event>, e: Event)
    requires Run(events).Some? && Forming(events) != [] && e.Observe? && e.claims <= MAX_CLAIMS
    requires var p, first := Run(events).value.policy, Forming(events)[0];
             var lead := 0.10 + p.secondsPerClaim * first.claims as real + 0.15;
             && first.claims <= e.claims
             && e.now >= first.now + 2.0 && e.now >= first.nextSlot - lead
             && (p.lastTarget.Some? ==> e.now >= p.lastTarget.value + 2.0 - lead)
    ensures Releases(events, e)
  {
    hide EstimatedSeconds, Run, Forming, Releases;
    var p, first := Run(events).value.policy, Forming(events)[0];
    EstimateIs(p, first.claims);
    var lead := EstimatedSeconds(p, first.claims) + MARGIN;
    assert e.now >= first.nextSlot - lead;
    assert p.lastTarget.Some? ==> e.now >= p.lastTarget.value + SLOT - lead;
    ReadyInTime(events, e);
  }

  // ---------------------------------------------------------------- what the estimate learns

  function Abs(x: real): real { if x < 0.0 then -x else x }

  /** The service time per claim that a job shows, as far as the policy can follow it. */
  function Shown(claims: int, seconds: real): real
    requires claims >= 1
  {
    Clamp((seconds - OVERHEAD) / claims as real, FASTEST, SLOWEST)
  }

  /** Every completion brings the estimate closer to what the job showed, by a factor of 0.8; by more only when the
      job was slower than the policy can follow. */
  lemma EstimateContracts(p: Policy, now: real, claims: int, seconds: real)
    requires PolicyOk(p) && Completed(p, Some(now), claims, Some(seconds)).Some?
    ensures var q := Completed(p, Some(now), claims, Some(seconds)).value;
            && Abs(q.secondsPerClaim - Shown(claims, seconds)) <= 0.8 * Abs(p.secondsPerClaim - Shown(claims, seconds))
            && (seconds <= 0.10 + 0.20 * claims as real ==>
                  q.secondsPerClaim - Shown(claims, seconds) == 0.8 * (p.secondsPerClaim - Shown(claims, seconds)))
  {
    PerClaim(claims, seconds);
  }

  lemma PerClaim(claims: int, seconds: real)
    requires claims >= 1
    ensures seconds <= 0.10 + 0.20 * claims as real ==> (seconds - OVERHEAD) / claims as real <= SLOWEST
  {
    var c, x := claims as real, (seconds - OVERHEAD) / claims as real;
    assert x * c == seconds - OVERHEAD;
    if x > SLOWEST { assert (x - SLOWEST) * c > 0.0; }
  }

  /** Estimating and learning are inverse: a job that takes exactly the estimated time leaves the estimate as it is. */
  lemma EstimateIsWhatIsLearnt(p: Policy, now: real, claims: int)
    requires PolicyOk(p) && 1 <= claims <= MAX_CLAIMS
    ensures var q := Completed(p, Some(now), claims, Some(EstimatedSeconds(p, claims)));
            q.Some? && q.value.secondsPerClaim == p.secondsPerClaim
  {
    var c := claims as real;
    assert p.secondsPerClaim * c >= 0.0;
    assert (EstimatedSeconds(p, claims) - OVERHEAD) / c == p.secondsPerClaim;
  }

  /** The target recorded for a completed batch is the later of its own and the moment of its completion. */
  lemma RecordedTarget(p: Policy, now: real, claims: int, seconds: real)
    requires Completed(p, Some(now), claims, Some(seconds)).Some?
    ensures var last := Completed(p, Some(now), claims, Some(seconds)).value.lastTarget;
            && last.Some? && last.value >= now && (p.target.Some? ==> last.value >= p.target.value)
            && (last.value == now || last == p.target)
  {
  }

  function Power(base: real, n: nat): real {
    if n == 0 then 1.0 else base * Power(base, n - 1)
  }

  datatype ProofJob = ProofJob(claims: int, seconds: real)

  /** Every job is one that `Completed` accepts and shows the same service time. */
  predicate AllShow(jobs: seq<ProofJob>, shown: real) {
    forall j :: j in jobs ==> 1 <= j.claims <= MAX_CLAIMS && j.seconds >= 0.0 && Shown(j.claims, j.seconds) == shown
  }

  /** The estimate after a row of completions, oldest first; a job that `Completed` refuses changes nothing. */
  function Learn(p: Policy, jobs: seq<ProofJob>): Policy {
    if |jobs| == 0 then p
    else
      var before, job := Learn(p, jobs[..|jobs| - 1]), jobs[|jobs| - 1];
      var after := Completed(before, Some(0.0), job.claims, Some(job.seconds));
      if after.None? then before else after.value
  }

  /** Under a constant service time the estimate converges to it geometrically. */
  lemma {:induction false} EstimateConverges(p: Policy, jobs: seq<ProofJob>, shown: real)
    requires PolicyOk(p) && AllShow(jobs, shown)
    ensures PolicyOk(Learn(p, jobs))
    ensures Abs(Learn(p, jobs).secondsPerClaim - shown) <= Power(0.8, |jobs|) * Abs(p.secondsPerClaim - shown)
  {
    hide PolicyOk, Shown, Power, Abs, Completed;
    if |jobs| > 0 {
      var n := |jobs| - 1;
      var before, job := Learn(p, jobs[..n]), jobs[n];
      assert job in jobs;
      EstimateConverges(p, jobs[..n], shown);
      CompletionHappens(before, job);
      EstimateContracts(before, 0.0, job.claims, job.seconds);
      CompletionKeepsPolicy(before, Some(0.0), job.claims, Some(job.seconds));
      OneMoreStep(Abs(Learn(p, jobs).secondsPerClaim - shown), Abs(before.secondsPerClaim - shown),
          Abs(p.secondsPerClaim - shown), n);
    } else {
      NoStep(Abs(p.secondsPerClaim - shown));
    }
  }

  lemma CompletionHappens(p: Policy, job: ProofJob)
    requires 1 <= job.claims <= MAX_CLAIMS && job.seconds >= 0.0
    ensures Completed(p, Some(0.0), job.claims, Some(job.seconds)).Some?
  {
  }

  lemma NoStep(first: real)
    ensures Power(0.8, 0) * first == first
  {
  }

  lemma OneMoreStep(after: real, before: real, first: real, n: nat)
    requires after <= 0.8 * before && before <= Power(0.8, n) * first
    ensures after <= Power(0.8, n + 1) * first
  {
    assert 0.8 * (Power(0.8, n) * first) == Power(0.8, n + 1) * first;
  }
}

/** The manual send queue as a state machine over every job ever confirmed, in confirmation order. A promise is
    named by the job whose completion it is; `None` is the promise that is already resolved. */
module QueueProtocol {
  import opened Wrappers

  /** `Failed(true)` is a rejection after the send had started, `Failed(false)` one before. */
  datatype Phase = Waiting | Running | Sent | Skipped | Failed(started: bool)

  datatype Job = Job(previous: Option<nat>, queued: bool, cancelled: bool, phase: Phase)

  datatype State = State(jobs: seq<Job>, tail: Option<nat>, count: int, starts: seq<nat>)

  datatype Event =
    /** The user confirms a send; `blocked` when another send is busy or history holds an unresolved hash. */
    | Confirm(contextOk: bool, blocked: bool)
    | Cancel(id: nat)
    /** A queued job's history row could not be written. */
    | RowFails(id: nat)
    /** The predecessor of a waiting job has settled and the job moves on. */
    | Proceed(id: nat, contextOk: bool)
    /** The send of a running job ends; it counts only when it yields a hash. */
    | Finish(id: nat, hash: bool)

  predicate Settled(p: Phase) {
    !p.Waiting? && !p.Running?
  }

  predicate Started(p: Phase) {
    p.Running? || p.Sent? || p == Failed(true)
  }

  function Empty(): State {
    State([], None, 0, [])
  }

  predicate Refused(s: State, contextOk: bool, blocked: bool) {
    !contextOk || (s.count <= 0 && blocked)
  }

  /** A job's completion settles: one fewer is counted, and an idle queue forgets its chain. */
  function Settle(s: State, id: nat, p: Phase): State
    requires id < |s.jobs|
  {
    s.(jobs := s.jobs[id := s.jobs[id].(phase := p)], count := s.count - 1,
        tail := if s.count == 1 then None else s.tail)
  }

  predicate PreviousSettled(s: State, id: nat)
    requires id < |s.jobs|
  {
    var p := s.jobs[id].previous;
    p.None? || (p.value < |s.jobs| && Settled(s.jobs[p.value].phase))
  }

  predicate Enabled(s: State, e: Event) {
    match e
    case Confirm(_, _) => true
    case Cancel(_) => true
    case RowFails(id) => id < |s.jobs| && s.jobs[id].phase.Waiting? && s.jobs[id].queued
    case Proceed(id, _) => id < |s.jobs| && s.jobs[id].phase.Waiting? && PreviousSettled(s, id)
    case Finish(id, _) => id < |s.jobs| && s.jobs[id].phase.Running?
  }

  function Next(s: State, e: Event): State
    requires Enabled(s, e)
  {
    match e
    case Confirm(contextOk, blocked) =>
      if Refused(s, contextOk, blocked) then s
      else State(s.jobs + [Job(s.tail, s.count > 0, false, Waiting)], Some(|s.jobs|), s.count + 1, s.starts)
    case Cancel(id) =>
      if id < |s.jobs| && s.jobs[id].queued && s.jobs[id].phase.Waiting?
      then s.(jobs := s.jobs[id := s.jobs[id].(cancelled := true)]) else s
    case RowFails(id) => Settle(s, id, Failed(false))
    case Proceed(id, contextOk) =>
      var job := s.jobs[id];
      if job.previous.Some? && s.jobs[job.previous.value].phase.Failed? then Settle(s, id, Failed(false))
      else if job.cancelled then Settle(s, id, Skipped)
      else if !contextOk then Settle(s, id, Failed(false))
      else s.(jobs := s.jobs[id := job.(phase := Running)], starts := s.starts + [id])
    case Finish(id, hash) => Settle(s, id, if hash then Sent else Failed(true))
  }

  /** The state after a run, if every event of it could happen in turn. */
  function Run(s: State, events: seq<Event>): Option<State> {
    if |events| == 0 then Some(s)
    else
      var before := Run(s, events[..|events| - 1]);
      var e := events[|events| - 1];
      if before.None? || !Enabled(before.value, e) then None else Some(Next(before.value, e))
  }

  // ---------------------------------------------------------------- the invariant

  function Unsettled(jobs: seq<Job>): nat {
    if |jobs| == 0 then 0 else (if Settled(jobs[|jobs| - 1].phase) then 0 else 1) + Unsettled(jobs[..|jobs| - 1])
  }

  lemma {:induction false} UnsettledUpdate(jobs: seq<Job>, id: nat, job: Job)
    requires id < |jobs|
    ensures Unsettled(jobs[id := job]) + (if Settled(jobs[id].phase) then 0 else 1) ==
        Unsettled(jobs) + (if Settled(job.phase) then 0 else 1)
  {
    var n := |jobs| - 1;
    if id < n {
      UnsettledUpdate(jobs[..n], id, job);
      assert jobs[id := job][..n] == jobs[..n][id := job];
    } else {
      assert jobs[id := job][..n] == jobs[..n];
    }
  }

  lemma {:induction false} NoneUnsettled(jobs: seq<Job>)
    ensures Unsettled(jobs) == 0 <==> forall i :: 0 <= i < |jobs| ==> Settled(jobs[i].phase)
  {
    if |jobs| > 0 {
      NoneUnsettled(jobs[..|jobs| - 1]);
      assert forall i :: 0 <= i < |jobs| - 1 ==> jobs[..|jobs| - 1][i] == jobs[i];
    }
  }

  /** A job that moved on by itself, rather than being rejected while it waited. */
  predicate Passed(p: Phase) {
    Started(p) || p.Skipped?
  }

  /** Job `i` opens a busy period, or waits for the job confirmed just before it. */
  predicate Chained(s: State, i: nat)
    requires i < |s.jobs|
  {
    s.jobs[i].previous.Some? ==> i >= 1 && s.jobs[i].previous.value == i - 1
  }

  predicate SettledBefore(s: State, i: nat) {
    forall j :: 0 <= j < i && j < |s.jobs| ==> Settled(s.jobs[j].phase)
  }

  /** The chain as each job sees it. */
  ghost predicate JobOk(s: State, i: nat)
    requires i < |s.jobs|
  {
    && Chained(s, i)
    && (s.jobs[i].previous.None? || Passed(s.jobs[i].phase) ==> SettledBefore(s, i))
    && (s.jobs[i].previous.Some? && Passed(s.jobs[i].phase) && i >= 1 ==>
        s.jobs[i - 1].phase.Sent? || s.jobs[i - 1].phase.Skipped?)
    && (s.jobs[i].cancelled ==> !Started(s.jobs[i].phase))
    && (i in s.starts <==> Started(s.jobs[i].phase))
  }

  ghost predicate Invariant(s: State) {
    && s.count == Unsettled(s.jobs)
    && s.tail == (if s.count == 0 then None else Some(|s.jobs| - 1))
    && (forall i :: 0 <= i < |s.jobs| ==> JobOk(s, i))
    && (forall x :: 0 <= x < |s.starts| ==> s.starts[x] < |s.jobs|)
    && (forall x, y :: 0 <= x < y < |s.starts| ==> s.starts[x] < s.starts[y])
  }

  // ---------------------------------------------------------------- every step keeps it

  /** Changing one job to a later phase leaves every other job as it should be. */
  lemma OtherJobOk(s: State, s': State, id: nat, i: nat)
    requires id < |s.jobs| && i < |s.jobs| && i != id && JobOk(s, i)
    requires |s'.jobs| == |s.jobs| && s'.jobs == s.jobs[id := s'.jobs[id]]
    requires !Settled(s.jobs[id].phase)
    requires s'.starts == s.starts || s'.starts == s.starts + [id]
    ensures JobOk(s', i)
  {
    if s.jobs[i].previous.None? || Passed(s.jobs[i].phase) {
      assert SettledBefore(s, i);
    }
  }

  lemma SettlingKeepsInvariant(s: State, id: nat, p: Phase)
    requires Invariant(s) && id < |s.jobs| && !Settled(s.jobs[id].phase) && Settled(p)
    requires s.jobs[id].phase.Running? ==> Started(p)
    requires s.jobs[id].phase.Waiting? ==> !Started(p)
    requires p.Skipped? ==> MayPass(s, id)
    ensures Invariant(Settle(s, id, p))
  {
    var s' := Settle(s, id, p);
    UnsettledUpdate(s.jobs, id, s'.jobs[id]);
    hide Unsettled;
    assert JobOk(s, id);
    forall i | 0 <= i < |s'.jobs| ensures JobOk(s', i) {
      if i != id { OtherJobOk(s, s', id, i); }
    }
  }

  /** The predecessor went through, so the whole chain before it did. */
  predicate MayPass(s: State, id: nat)
    requires id < |s.jobs|
  {
    && SettledBefore(s, id)
    && (s.jobs[id].previous.Some? && id >= 1 ==> s.jobs[id - 1].phase.Sent? || s.jobs[id - 1].phase.Skipped?)
  }

  lemma ChainMayPass(s: State, id: nat)
    requires Invariant(s) && id < |s.jobs| && PreviousSettled(s, id)
    requires s.jobs[id].previous.None? || !s.jobs[s.jobs[id].previous.value].phase.Failed?
    ensures MayPass(s, id)
  {
    assert JobOk(s, id);
    if s.jobs[id].previous.Some? { assert JobOk(s, id - 1); }
  }

  lemma StartingKeepsInvariant(s: State, id: nat)
    requires Invariant(s) && id < |s.jobs| && s.jobs[id].phase.Waiting? && !s.jobs[id].cancelled && MayPass(s, id)
    ensures Invariant(s.(jobs := s.jobs[id := s.jobs[id].(phase := Running)], starts := s.starts + [id]))
  {
    var s' := s.(jobs := s.jobs[id := s.jobs[id].(phase := Running)], starts := s.starts + [id]);
    UnsettledUpdate(s.jobs, id, s'.jobs[id]);
    hide Unsettled;
    assert JobOk(s, id);
    forall i | 0 <= i < |s'.jobs| ensures JobOk(s', i) {
      if i != id { OtherJobOk(s, s', id, i); }
    }
    forall x | 0 <= x < |s.starts| ensures s.starts[x] < id {
      assert s.starts[x] in s.starts && JobOk(s, s.starts[x]);
    }
  }

  lemma ConfirmKeepsInvariant(s: State)
    requires Invariant(s)
    ensures Invariant(State(s.jobs + [Job(s.tail, s.count > 0, false, Waiting)], Some(|s.jobs|), s.count + 1, s.starts))
  {
    var s' := State(s.jobs + [Job(s.tail, s.count > 0, false, Waiting)], Some(|s.jobs|), s.count + 1, s.starts);
    assert s'.jobs[..|s.jobs|] == s.jobs;
    assert s.count >= 0;
    NoneUnsettled(s.jobs);
    assert s'.count == Unsettled(s'.jobs);
    hide Unsettled;
    forall i | 0 <= i < |s'.jobs| ensures JobOk(s', i) {
      if i < |s.jobs| { assert JobOk(s, i); }
    }
  }

  lemma CancelKeepsInvariant(s: State, id: nat)
    requires Invariant(s) && id < |s.jobs| && s.jobs[id].phase.Waiting?
    ensures Invariant(s.(jobs := s.jobs[id := s.jobs[id].(cancelled := true)]))
  {
    var s' := s.(jobs := s.jobs[id := s.jobs[id].(cancelled := true)]);
    UnsettledUpdate(s.jobs, id, s'.jobs[id]);
    hide Unsettled;
    assert JobOk(s, id);
    forall i | 0 <= i < |s'.jobs| ensures JobOk(s', i) {
      if i != id { OtherJobOk(s, s', id, i); }
    }
  }

  lemma StepKeepsInvariant(s: State, e: Event)
    requires Invariant(s) && Enabled(s, e)
    ensures Invariant(Next(s, e))
  {
    match e
    case Confirm(contextOk, blocked) =>
      ConfirmKeepsInvariant(s);
    case Cancel(id) =>
      if id < |s.jobs| && s.jobs[id].phase.Waiting? { CancelKeepsInvariant(s, id); }
    case RowFails(id) =>
      SettlingKeepsInvariant(s, id, Failed(false));
    case Finish(id, hash) =>
      SettlingKeepsInvariant(s, id, if hash then Sent else Failed(true));
    case Proceed(id, contextOk) =>
      SettlingKeepsInvariant(s, id, Failed(false));
      if s.jobs[id].previous.None? || !s.jobs[s.jobs[id].previous.value].phase.Failed? {
        ChainMayPass(s, id);
        SettlingKeepsInvariant(s, id, Skipped);
        if !s.jobs[id].cancelled { StartingKeepsInvariant(s, id); }
      }
  }

  // ---------------------------------------------------------------- every run

  lemma {:induction false} EveryRunKeepsInvariant(events: seq<Event>)
    requires Run(Empty(), events).Some?
    ensures Invariant(Run(Empty(), events).value)
  {
    hide Next, Enabled, Invariant;
    if |events| == 0 {
      EmptyIsOk();
    } else {
      EveryRunKeepsInvariant(events[..|events| - 1]);
      StepKeepsInvariant(Run(Empty(), events[..|events| - 1]).value, events[|events| - 1]);
    }
  }

  lemma EmptyIsOk()
    ensures Invariant(Empty())
  {
  }

  /** In every run at most one send executes at a time, sends start in the order in which they were confirmed,
      and a job cancelled before its start never executes. */
  lemma OneAtATimeInOrder(events: seq<Event>)
    requires Run(Empty(), events).Some?
    ensures var s := Run(Empty(), events).value;
            && (forall i, j ::
                0 <= i < |s.jobs| && 0 <= j < |s.jobs| && s.jobs[i].phase.Running? && s.jobs[j].phase.Running? ==>
                i == j)
            && (forall x, y :: 0 <= x < y < |s.starts| ==> s.starts[x] < s.starts[y])
            && (forall i :: 0 <= i < |s.jobs| && s.jobs[i].cancelled ==> i !in s.starts)
            && (forall i :: 0 <= i < |s.jobs| ==> (i in s.starts <==> Started(s.jobs[i].phase)))
  {
    EveryRunKeepsInvariant(events);
    hide Run, Unsettled, JobOk, Started;
    var s := Run(Empty(), events).value;
    forall i, j | 0 <= i < |s.jobs| && 0 <= j < |s.jobs| && s.jobs[i].phase.Running? &&
        s.jobs[j].phase.Running? ensures i == j {
      if i < j { RunnersAreLast(s, j); } else if j < i { RunnersAreLast(s, i); }
    }
    forall i | 0 <= i < |s.jobs|
      ensures i in s.starts <==> Started(s.jobs[i].phase)
      ensures s.jobs[i].cancelled ==> i !in s.starts
    {
      StartsAreExact(s, i);
    }
  }

  lemma RunnersAreLast(s: State, j: nat)
    requires j < |s.jobs| && JobOk(s, j) && s.jobs[j].phase.Running?
    ensures forall i :: 0 <= i < j ==> Settled(s.jobs[i].phase)
  {
  }

  lemma StartsAreExact(s: State, i: nat)
    requires i < |s.jobs| && JobOk(s, i)
    ensures i in s.starts <==> Started(s.jobs[i].phase)
    ensures s.jobs[i].cancelled ==> i !in s.starts
  {
  }

  lemma RunnerIsAlone(s: State, id: nat)
    requires Invariant(s) && id < |s.jobs|
    ensures s.jobs[id].phase.Running? ==> forall i :: 0 <= i < |s.jobs| && i != id ==> !s.jobs[i].phase.Running?
  {
    hide Unsettled, JobOk, Started;
    if s.jobs[id].phase.Running? {
      RunnersAreLast(s, id);
      forall i | 0 <= i < |s.jobs| && i != id ensures !s.jobs[i].phase.Running? {
        if s.jobs[i].phase.Running? && id < i { RunnersAreLast(s, i); }
      }
    }
  }

  lemma WaitingHasNotStarted(s: State, id: nat)
    requires Invariant(s)
    ensures id < |s.jobs| && s.jobs[id].phase.Waiting? ==> id !in s.starts
  {
    hide Unsettled, JobOk;
    if id < |s.jobs| { StartsAreExact(s, id); }
  }

  lemma CounterTells(s: State)
    requires Invariant(s)
    ensures s.count == 0 <==> forall i :: 0 <= i < |s.jobs| ==> Settled(s.jobs[i].phase)
    ensures s.count >= 0
  {
    NoneUnsettled(s.jobs);
  }

  /** Jobs `i` and `j` were confirmed in one busy period, `i` first. */
  predicate SamePeriod(s: State, i: nat, j: nat) {
    i < j < |s.jobs| && forall k :: i < k <= j ==> s.jobs[k].previous.Some?
  }

  lemma {:induction false} ChainIsClean(s: State, i: nat, j: nat)
    requires Invariant(s) && SamePeriod(s, i, j) && Passed(s.jobs[j].phase)
    ensures s.jobs[i].phase.Sent? || s.jobs[i].phase.Skipped?
    decreases j
  {
    hide Unsettled;
    assert JobOk(s, j);
    if i < j - 1 { ChainIsClean(s, i, j - 1); }
  }

  /** Once a job has failed, no job queued behind it in the same busy period starts, now or later. */
  lemma NothingStartsBehindAFailure(events: seq<Event>, i: nat, j: nat)
    requires Run(Empty(), events).Some?
    requires var s := Run(Empty(), events).value; SamePeriod(s, i, j) && s.jobs[i].phase.Failed?
    ensures var s := Run(Empty(), events).value; j !in s.starts && !s.jobs[j].phase.Skipped?
  {
    EveryRunKeepsInvariant(events);
    hide Run, Unsettled;
    var s := Run(Empty(), events).value;
    assert JobOk(s, j);
    if Passed(s.jobs[j].phase) { ChainIsClean(s, i, j); }
  }

  /** The counter shows how many jobs have not settled; it is zero exactly when the next send starts a new
      chain, and only then does an unresolved earlier send block it. */
  lemma CounterIsExact(events: seq<Event>)
    requires Run(Empty(), events).Some?
    ensures var s := Run(Empty(), events).value;
            && (s.count == 0 <==> forall i :: 0 <= i < |s.jobs| ==> Settled(s.jobs[i].phase))
            && s.count >= 0 && (s.tail.None? <==> s.count == 0)
  {
    EveryRunKeepsInvariant(events);
    CounterTells(Run(Empty(), events).value);
  }
}

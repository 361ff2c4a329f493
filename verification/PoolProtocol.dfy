/** The worker pool that spreads hash work over background threads, as a state machine over its events:
    an idle stack, a first-in-first-out queue and a map of promises not yet settled. */
module PoolProtocol {
  import opened Wrappers

  datatype Job<T> = Job(id: nat, task: T)

  datatype Outcome<R> = Resolved(value: R) | Rejected

  /** The pool and, beside it, what the outside world sees: the job each worker is running, the promises
      already settled, and the order in which jobs were handed to workers. */
  datatype State<T, R> = State(
    size: nat,
    idle: seq<nat>,
    queue: seq<Job<T>>,
    pending: map<nat, Option<nat>>,
    seqNo: nat,
    running: map<nat, Job<T>>,
    settled: map<nat, Outcome<R>>,
    started: seq<nat>)

  // ---------------------------------------------------------------- one event at a time

  /** Hand the oldest queued job to the most recently freed worker, until one of the two runs out. */
  function Drain<T, R>(s: State<T, R>): State<T, R>
    decreases |s.queue|
  {
    if s.idle == [] || s.queue == [] then s else Drain(Dispatch(s))
  }

  function Dispatch<T, R>(s: State<T, R>): State<T, R>
    requires s.idle != [] && s.queue != []
  {
    var w, job := s.idle[|s.idle| - 1], s.queue[0];
    s.(idle := s.idle[..|s.idle| - 1], queue := s.queue[1..],
       pending := if job.id in s.pending then s.pending[job.id := Some(w)] else s.pending,
       running := s.running[w := job], started := s.started + [job.id])
  }

  /** The pool with one more job at the end of the queue, before anything is handed out. */
  function Enqueue<T, R>(s: State<T, R>, task: T): State<T, R> {
    s.(seqNo := s.seqNo + 1, pending := s.pending[s.seqNo + 1 := None], queue := s.queue + [Job(s.seqNo + 1, task)])
  }

  function Submit<T, R>(s: State<T, R>, task: T): State<T, R> {
    Drain(Enqueue(s, task))
  }

  /** A worker has answered job `id`; an answer to a job no longer pending is dropped. */
  function OnMessage<T, R>(s: State<T, R>, w: nat, id: nat, outcome: Outcome<R>): State<T, R> {
    var s1 := if id in s.pending then s.(pending := s.pending - {id}, settled := s.settled[id := outcome]) else s;
    Drain(s1.(idle := s1.idle + [w], running := s1.running - {w}))
  }

  /** A worker has crashed: reject whatever it was running and recycle it. */
  function OnError<T, R>(s: State<T, R>, w: nat): State<T, R> {
    var lost := set id | id in s.pending && s.pending[id] == Some(w);
    var s1 := s.(pending := s.pending - lost,
                 settled := s.settled + (map id | id in lost :: Rejected));
    Drain(s1.(idle := if w in s1.idle then s1.idle else s1.idle + [w], running := s1.running - {w}))
  }

  function Initial<T, R>(size: nat): State<T, R> {
    State(size, seq(size, i requires 0 <= i => i), [], map[], 0, map[], map[], [])
  }

  // ---------------------------------------------------------------- runs

  /** What can happen: a caller submits; a busy worker answers, reports a failure, or crashes. */
  datatype Event<T> = Submitted(task: T) | Answered(w: nat) | Failed(w: nat) | Crashed(w: nat)

  predicate Possible<T, R>(s: State<T, R>, e: Event<T>) {
    e.Submitted? || e.w in s.running
  }

  /** Workers compute `run` on the task they were given. */
  function Next<T, R>(s: State<T, R>, e: Event<T>, run: T -> R): State<T, R>
    requires Possible(s, e)
  {
    match e
    case Submitted(task) => Submit(s, task)
    case Answered(w) => OnMessage(s, w, s.running[w].id, Resolved(run(s.running[w].task)))
    case Failed(w) => OnMessage(s, w, s.running[w].id, Rejected)
    case Crashed(w) => OnError(s, w)
  }

  /** A finite run from the freshly spawned pool. */
  ghost predicate IsRun<T, R>(size: nat, events: seq<Event<T>>, states: seq<State<T, R>>, run: T -> R) {
    && |states| == |events| + 1 && states[0] == Initial(size)
    && forall i :: 0 <= i < |events| ==>
        Possible(states[i], events[i]) && states[i + 1] == Next(states[i], events[i], run)
  }

  /** The tasks submitted so far, in order. */
  function Submissions<T>(events: seq<Event<T>>): seq<T> {
    if |events| == 0 then []
    else Submissions(events[..|events| - 1]) +
         (match events[|events| - 1] case Submitted(task) => [task] case _ => [])
  }

  // ---------------------------------------------------------------- the invariant

  /** Jobs are numbered 1, 2, ... in submission order, and leave the queue in that order. */
  ghost predicate InOrder<T, R>(s: State<T, R>) {
    && |s.started| + |s.queue| == s.seqNo
    && (forall i :: 0 <= i < |s.started| ==> s.started[i] == i + 1)
    && (forall i :: 0 <= i < |s.queue| ==> s.queue[i].id == |s.started| + i + 1)
  }

  /** Every worker is either idle, once, or holds exactly one job that is pending under its name. */
  ghost predicate WorkersAccounted<T, R>(s: State<T, R>) {
    && (forall i, j :: 0 <= i < j < |s.idle| ==> s.idle[i] != s.idle[j])
    && (forall w :: 0 <= w < s.size <==> (w in s.idle || w in s.running))
    && (forall w :: w in s.running ==> w !in s.idle)
    && (forall w :: w in s.running ==>
          && 1 <= s.running[w].id <= |s.started|
          && s.running[w].id in s.pending && s.pending[s.running[w].id] == Some(w))
  }

  /** Every submitted job is pending or settled, never both; a pending job is queued or held by the worker
      it is recorded under. */
  ghost predicate JobsAccounted<T, R>(s: State<T, R>) {
    && (forall id :: 1 <= id <= s.seqNo <==> (id in s.pending || id in s.settled))
    && (forall id :: id in s.settled ==> id <= |s.started| && id !in s.pending)
    && (forall id :: id in s.pending && id > |s.started| ==> s.pending[id] == None)
    && (forall id :: id in s.pending && id <= |s.started| ==>
          s.pending[id].Some? && s.pending[id].value in s.running && s.running[s.pending[id].value].id == id)
  }

  /** No worker idles while a job waits. */
  ghost predicate Drained<T, R>(s: State<T, R>) {
    s.idle == [] || s.queue == []
  }

  ghost predicate Invariant<T, R>(s: State<T, R>) {
    InOrder(s) && WorkersAccounted(s) && JobsAccounted(s)
  }

  /** Every job carries the task it was submitted with, and a resolved promise holds that task's result. */
  ghost predicate Faithful<T(!new), R>(s: State<T, R>, tasks: seq<T>, run: T -> R) {
    && s.seqNo == |tasks|
    && (forall i :: 0 <= i < |s.queue| ==> 1 <= s.queue[i].id <= |tasks| && s.queue[i].task == tasks[s.queue[i].id - 1])
    && (forall w :: w in s.running ==>
        1 <= s.running[w].id <= |tasks| && s.running[w].task == tasks[s.running[w].id - 1])
    && (forall id :: id in s.settled ==>
          1 <= id <= |tasks| && (s.settled[id].Resolved? ==> s.settled[id].value == run(tasks[id - 1])))
  }

  lemma PopKeepsMembers(idle: seq<nat>, w: nat)
    requires idle != []
    ensures w in idle <==> w in idle[..|idle| - 1] || w == idle[|idle| - 1]
  {
    assert idle == idle[..|idle| - 1] + [idle[|idle| - 1]];
  }

  lemma DispatchKeepsWorkers<T, R>(s: State<T, R>)
    requires Invariant(s) && s.idle != [] && s.queue != []
    ensures WorkersAccounted(Dispatch(s))
  {
    var s', n := Dispatch(s), |s.idle| - 1;
    var last := s.idle[n];
    assert s'.idle == s.idle[..n] && s'.running.Keys == s.running.Keys + {last};
    assert s.queue[0].id == |s.started| + 1 && last in s.idle;
    forall w ensures w in s.idle <==> w in s'.idle || w == last { PopKeepsMembers(s.idle, w); }
    assert forall i :: 0 <= i < |s'.idle| ==> s'.idle[i] != last;
  }

  lemma DispatchKeepsJobs<T, R>(s: State<T, R>)
    requires Invariant(s) && s.idle != [] && s.queue != []
    ensures InOrder(Dispatch(s)) && JobsAccounted(Dispatch(s))
  {
    var w, job := s.idle[|s.idle| - 1], s.queue[0];
    assert job.id == |s.started| + 1 && w in s.idle;
  }

  lemma {:induction false} DrainKeepsInvariant<T, R>(s: State<T, R>)
    requires Invariant(s)
    ensures Invariant(Drain(s)) && Drained(Drain(s))
    ensures Drain(s).seqNo == s.seqNo && Drain(s).size == s.size && Drain(s).settled == s.settled
    ensures Drain(s).pending.Keys == s.pending.Keys
    decreases |s.queue|
  {
    hide Invariant, InOrder, WorkersAccounted, JobsAccounted;
    if s.idle != [] && s.queue != [] {
      DispatchKeepsInvariant(s);
      DrainKeepsInvariant(Dispatch(s));
    }
  }

  lemma DispatchKeepsInvariant<T, R>(s: State<T, R>)
    requires Invariant(s) && s.idle != [] && s.queue != []
    ensures Invariant(Dispatch(s))
  {
    hide InOrder, WorkersAccounted, JobsAccounted;
    DispatchKeepsWorkers(s);
    DispatchKeepsJobs(s);
  }

  lemma EnqueueKeepsInvariant<T, R>(s: State<T, R>, task: T)
    requires Invariant(s)
    ensures Invariant(Enqueue(s, task))
  {
    assert s.seqNo + 1 !in s.settled && s.seqNo + 1 !in s.pending;
    assert WorkersAccounted(Enqueue(s, task));
    assert InOrder(Enqueue(s, task));
  }

  lemma SubmitKeepsInvariant<T, R>(s: State<T, R>, task: T)
    requires Invariant(s)
    ensures Invariant(Submit(s, task)) && Drained(Submit(s, task))
    ensures Submit(s, task).seqNo == s.seqNo + 1 && Submit(s, task).settled == s.settled &&
        Submit(s, task).size == s.size
  {
    hide Invariant, Drained, Drain;
    EnqueueKeepsInvariant(s, task);
    DrainKeepsInvariant(Enqueue(s, task));
  }

  /** The pool just after the answer of worker `w`, before anything is handed out. */
  function Settle<T, R>(s: State<T, R>, w: nat, outcome: Outcome<R>): State<T, R>
    requires w in s.running
  {
    var id := s.running[w].id;
    s.(pending := s.pending - {id}, settled := s.settled[id := outcome],
       idle := s.idle + [w], running := s.running - {w})
  }

  lemma SettleKeepsWorkers<T, R>(s: State<T, R>, w: nat, outcome: Outcome<R>)
    requires InOrder(s) && WorkersAccounted(s) && w in s.running
    ensures InOrder(Settle(s, w, outcome)) && WorkersAccounted(Settle(s, w, outcome))
  {
    var s1 := Settle(s, w, outcome);
    assert w in s1.idle && forall v :: v in s.idle ==> v in s1.idle;
  }

  lemma SettleKeepsJobs<T, R>(s: State<T, R>, w: nat, outcome: Outcome<R>)
    requires Invariant(s) && w in s.running
    ensures s.running[w].id in s.pending && s.running[w].id !in s.settled
    ensures JobsAccounted(Settle(s, w, outcome))
  {
  }

  /** An answer settles a job that was not settled before, and no other. */
  lemma AnswerSettlesOnce<T, R>(s: State<T, R>, w: nat, outcome: Outcome<R>)
    requires Invariant(s) && w in s.running
    ensures s.running[w].id !in s.settled
    ensures Invariant(OnMessage(s, w, s.running[w].id, outcome)) && Drained(OnMessage(s, w, s.running[w].id, outcome))
    ensures OnMessage(s, w, s.running[w].id, outcome).settled == s.settled[s.running[w].id := outcome]
    ensures OnMessage(s, w, s.running[w].id, outcome).size == s.size &&
        OnMessage(s, w, s.running[w].id, outcome).seqNo == s.seqNo
    ensures s.running[w].id in s.pending
    ensures OnMessage(s, w, s.running[w].id, outcome).pending.Keys == s.pending.Keys - {s.running[w].id}
  {
    hide Drain, Drained, InOrder, WorkersAccounted, JobsAccounted;
    SettleKeepsWorkers(s, w, outcome);
    SettleKeepsJobs(s, w, outcome);
    DrainKeepsInvariant(Settle(s, w, outcome));
  }

  /** A crash rejects exactly the job the worker was running. */
  lemma CrashSettlesOnce<T, R>(s: State<T, R>, w: nat)
    requires Invariant(s) && w in s.running
    ensures s.running[w].id !in s.settled
    ensures OnError(s, w) == OnMessage(s, w, s.running[w].id, Rejected)
  {
    var id := s.running[w].id;
    var lost := set x | x in s.pending && s.pending[x] == Some(w);
    assert lost == {id} by {
      forall x | x in lost ensures x == id {
        assert x <= |s.started|;
      }
    }
    assert s.pending - lost == s.pending - {id} && w !in s.idle;
    assert s.settled + (map x | x in lost :: Rejected) == s.settled[id := Rejected];
  }

  lemma InitialInvariant<T, R>(size: nat)
    ensures Invariant(Initial<T, R>(size)) && Drained(Initial<T, R>(size))
  {
    var idle := Initial<T, R>(size).idle;
    forall w | 0 <= w < size ensures w in idle {
      assert idle[w] == w;
    }
  }

  lemma StepKeepsInvariant<T, R>(s: State<T, R>, e: Event<T>, run: T -> R)
    requires Invariant(s) && Possible(s, e)
    ensures Invariant(Next(s, e, run)) && Drained(Next(s, e, run)) && Next(s, e, run).size == s.size
    ensures s.settled.Keys <= Next(s, e, run).settled.Keys
    ensures forall id :: id in s.settled ==> Next(s, e, run).settled[id] == s.settled[id]
  {
    hide Invariant, Submit, OnMessage, OnError;
    match e
    case Submitted(task) => SubmitKeepsInvariant(s, task);
    case Answered(w) => AnswerSettlesOnce(s, w, Resolved(run(s.running[w].task)));
    case Failed(w) => AnswerSettlesOnce(s, w, Rejected);
    case Crashed(w) =>
      CrashSettlesOnce(s, w);
      AnswerSettlesOnce(s, w, Rejected);
  }

  /** In every run: each worker is idle or holds exactly one job, jobs start in submission order, no idle
      worker coexists with a queued job, and a settled promise never changes. */
  lemma {:induction false} EveryRunKeepsInvariant<T, R>(size: nat, events: seq<Event<T>>, states: seq<State<T, R>>,
      run: T -> R, n: nat)
    requires IsRun(size, events, states, run) && n <= |events|
    ensures Invariant(states[n]) && Drained(states[n]) && states[n].size == size
    ensures forall m, id :: 0 <= m <= n && id in states[m].settled ==>
              id in states[n].settled && states[n].settled[id] == states[m].settled[id]
  {
    hide Invariant, Drained, Next, Possible;
    if n == 0 {
      InitialInvariant<T, R>(size);
    } else {
      EveryRunKeepsInvariant(size, events, states, run, n - 1);
      assert states[n] == Next(states[n - 1], events[n - 1], run) && Possible(states[n - 1], events[n - 1]);
      StepKeepsInvariant(states[n - 1], events[n - 1], run);
    }
  }

  // ---------------------------------------------------------------- results

  lemma {:induction false} DrainKeepsFaithful<T(!new), R>(s: State<T, R>, tasks: seq<T>, run: T -> R)
    requires Faithful(s, tasks, run)
    ensures Faithful(Drain(s), tasks, run)
    decreases |s.queue|
  {
    if s.idle != [] && s.queue != [] {
      var s' := Dispatch(s);
      assert forall i :: 0 <= i < |s'.queue| ==> s'.queue[i] == s.queue[i + 1];
      DrainKeepsFaithful(s', tasks, run);
    }
  }

  lemma StepKeepsFaithful<T(!new), R>(s: State<T, R>, e: Event<T>, tasks: seq<T>, run: T -> R)
    requires Invariant(s) && Possible(s, e) && Faithful(s, tasks, run)
    ensures Faithful(Next(s, e, run), if e.Submitted? then tasks + [e.task] else tasks, run)
  {
    hide Invariant, Drain;
    match e
    case Submitted(task) =>
      DrainKeepsFaithful(Enqueue(s, task), tasks + [task], run);
    case Answered(w) =>
      AnswerKeepsFaithful(s, w, Resolved(run(s.running[w].task)), tasks, run);
    case Failed(w) =>
      AnswerKeepsFaithful(s, w, Rejected, tasks, run);
    case Crashed(w) =>
      CrashSettlesOnce(s, w);
      AnswerKeepsFaithful(s, w, Rejected, tasks, run);
  }

  lemma AnswerKeepsFaithful<T(!new), R>(s: State<T, R>, w: nat, outcome: Outcome<R>, tasks: seq<T>, run: T -> R)
    requires w in s.running && Faithful(s, tasks, run)
    requires outcome == Resolved(run(s.running[w].task)) || outcome == Rejected
    ensures Faithful(OnMessage(s, w, s.running[w].id, outcome), tasks, run)
  {
    hide Drain;
    var id := s.running[w].id;
    var s1 := if id in s.pending then s.(pending := s.pending - {id}, settled := s.settled[id := outcome]) else s;
    DrainKeepsFaithful(s1.(idle := s1.idle + [w], running := s1.running - {w}), tasks, run);
  }

  /** Whatever the order in which workers finish, a resolved promise holds the result of the task that was
      submitted under its number. */
  lemma {:induction false} EveryRunIsFaithful<T(!new), R>(size: nat, events: seq<Event<T>>, states: seq<State<T, R>>,
      run: T -> R, n: nat)
    requires IsRun(size, events, states, run) && n <= |events|
    ensures Faithful(states[n], Submissions(events[..n]), run)
  {
    hide Invariant, Next, Possible;
    if n == 0 {
    } else {
      EveryRunIsFaithful(size, events, states, run, n - 1);
      EveryRunKeepsInvariant(size, events, states, run, n - 1);
      assert states[n] == Next(states[n - 1], events[n - 1], run) && Possible(states[n - 1], events[n - 1]);
      StepKeepsFaithful(states[n - 1], events[n - 1], Submissions(events[..n - 1]), run);
      assert events[..n][..n - 1] == events[..n - 1];
      assert Submissions(events[..n]) ==
             if events[n - 1].Submitted? then Submissions(events[..n - 1]) + [events[n - 1].task]
             else Submissions(events[..n - 1]);
    }
  }

  /** Once nothing is running, every promise has been settled: no job is ever left behind. */
  lemma QuietPoolHasSettledAll<T, R>(s: State<T, R>)
    requires Invariant(s) && Drained(s) && s.size >= 1 && s.running == map[]
    ensures s.queue == [] && s.pending == map[]
    ensures forall id :: 1 <= id <= s.seqNo ==> id in s.settled
  {
    assert 0 in s.idle;
    assert forall id :: id !in s.pending;
  }

  /** While a promise is outstanding some worker is busy, so waiting for it cannot stall. */
  lemma SomeoneIsBusy<T, R>(s: State<T, R>, id: nat)
    requires Invariant(s) && Drained(s) && s.size >= 1 && 1 <= id <= s.seqNo && id !in s.settled
    ensures exists w :: w in s.running
  {
    if s.running == map[] {
      QuietPoolHasSettledAll(s);
    } else {
      var w :| w in s.running.Keys;
    }
  }

  /** Whichever way a busy worker finishes: exactly its promise is settled, and everything else is kept. */
  lemma FinishKeepsAll<T(!new), R>(s: State<T, R>, w: nat, outcome: Outcome<R>, tasks: seq<T>, run: T -> R)
    requires Invariant(s) && w in s.running && Faithful(s, tasks, run)
    requires outcome == Resolved(run(s.running[w].task)) || outcome == Rejected
    ensures var id, s' := s.running[w].id, OnMessage(s, w, s.running[w].id, outcome);
            && Invariant(s') && Drained(s') && Faithful(s', tasks, run) && s'.size == s.size && s'.seqNo == s.seqNo
            && id !in s.settled && s'.settled == s.settled[id := outcome]
            && id in s.pending && s'.pending.Keys == s.pending.Keys - {id}
  {
    hide Invariant, Drained, OnMessage;
    AnswerSettlesOnce(s, w, outcome);
    AnswerKeepsFaithful(s, w, outcome, tasks, run);
  }

  /** The worker of this event fails, or crashes, over job `id`. */
  predicate FailsJob<T, R>(s: State<T, R>, e: Event<T>, id: nat) {
    (e.Failed? || e.Crashed?) && e.w in s.running && s.running[e.w].id == id
  }

  lemma StepRejects<T(!new), R>(s: State<T, R>, e: Event<T>, run: T -> R, id: nat)
    requires Invariant(s) && Possible(s, e)
    ensures id in Next(s, e, run).settled && Next(s, e, run).settled[id].Rejected?
            <==> (id in s.settled && s.settled[id].Rejected?) || FailsJob(s, e, id)
  {
    hide Invariant, Drain;
    if e.Submitted? {
      EnqueueKeepsInvariant(s, e.task);
      DrainKeepsInvariant(Enqueue(s, e.task));
    } else {
      CrashSettlesOnce(s, e.w);
      AnswerSettlesOnce(s, e.w, Resolved(run(s.running[e.w].task)));
      AnswerSettlesOnce(s, e.w, Rejected);
      hide OnMessage, OnError;
    }
  }

  /** In every run a promise is rejected exactly when the worker that held its job failed or crashed over it. */
  lemma {:induction false} RejectedExactlyWhenFailed<T(!new), R>(size: nat, events: seq<Event<T>>,
      states: seq<State<T, R>>, run: T -> R, n: nat, id: nat)
    requires IsRun(size, events, states, run) && n <= |events|
    ensures id in states[n].settled && states[n].settled[id].Rejected?
            <==> exists i :: 0 <= i < n && FailsJob(states[i], events[i], id)
  {
    hide Invariant, Next, Possible, FailsJob;
    if n > 0 {
      RejectedExactlyWhenFailed(size, events, states, run, n - 1, id);
      EveryRunKeepsInvariant(size, events, states, run, n - 1);
      assert states[n] == Next(states[n - 1], events[n - 1], run) && Possible(states[n - 1], events[n - 1]);
      StepRejects(states[n - 1], events[n - 1], run, id);
    }
  }
}
